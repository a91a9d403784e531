/**
 * The patient's age at case onset, in years, months and days, from the
 * onset date and the birth date (the arithmetic of the batch form's
 * setPatientAgeAtCaseOnsetDate).  A missing or unparsable date is None.
 */
module PatientAge {
  import opened Wrappers
  import opened Calendar

  /** The three form fields: all cleared, or all filled. */
  datatype AgeFields = Cleared | Age(years: int, months: int, days: int)

  /** Length of the month before the onset month (December of the previous
      year for a January onset): the days borrowed when the day difference
      is negative. */
  function BorrowedMonthLength(onset: Date): (n: int)
    requires 1 <= onset.month <= 12
  {
    var (y, m) := PrevMonth(onset.year, onset.month);
    DaysInMonth(y, m)
  }

  /** The day field as the form computes it. */
  function DayPart(onset: Date, birth: Date): int
    requires 1 <= onset.month <= 12
  {
    if onset.day >= birth.day then onset.day - birth.day
    else onset.day - birth.day + BorrowedMonthLength(onset)
  }

  /** Whole months elapsed: calendar months between the two dates, less one
      when the onset day falls before the birth day. */
  function ElapsedMonths(onset: Date, birth: Date): int {
    12 * (onset.year - birth.year) + (onset.month - birth.month) - (if onset.day < birth.day then 1 else 0)
  }

  /** setPatientAgeAtCaseOnsetDate, without the form reads and writes. */
  method AgeAtOnset(onset: Option<Date>, birth: Option<Date>) returns (r: AgeFields)
    requires onset.Some? ==> ValidDate(onset.value)
    requires birth.Some? ==> ValidDate(birth.value)
    ensures r.Cleared? <==> onset.None? || birth.None? || Before(onset.value, birth.value)
    ensures r.Age? ==>
              && r.years == ElapsedMonths(onset.value, birth.value) / 12
              && r.months == ElapsedMonths(onset.value, birth.value) % 12
              && r.days == DayPart(onset.value, birth.value)
    ensures r.Age? ==> r.years >= 0 && 0 <= r.months <= 11
    ensures r.Age? && onset.value.day >= birth.value.day ==> r.days == onset.value.day - birth.value.day
    ensures r.Age? && onset.value.day < birth.value.day ==>
              -2 <= r.days < BorrowedMonthLength(onset.value)
  {
    if onset.None? || birth.None? || Before(onset.value, birth.value) {
      return Cleared;
    }
    var now, dob := onset.value, birth.value;
    var currentday, currentmonth, currentyear := now.day, now.month, now.year;
    var birthday, birthmonth, birthyear := dob.day, dob.month, dob.year;
    var ageday := currentday - birthday;
    var agemonth := 0;
    var ageyear := 0;
    if ageday < 0 {
      currentmonth := currentmonth - 1;
      if currentmonth < 1 {
        currentyear := currentyear - 1;
        currentmonth := currentmonth + 12;
      }
      var dayspermonth := 30;
      if currentmonth == 1 || currentmonth == 3 || currentmonth == 5 || currentmonth == 7
        || currentmonth == 8 || currentmonth == 10 || currentmonth == 12
      {
        dayspermonth := 31;
      } else if currentmonth == 2 {
        dayspermonth := 28;
        if currentyear % 4 == 0 && (currentyear % 100 != 0 || currentyear % 400 == 0) {
          dayspermonth := dayspermonth + 1;
        }
      }
      assert dayspermonth == BorrowedMonthLength(now);
      ageday := ageday + dayspermonth;
    }
    assert 12 * currentyear + currentmonth == 12 * now.year + now.month - (if now.day < dob.day then 1 else 0);
    agemonth := currentmonth - birthmonth;
    if agemonth < 0 {
      currentyear := currentyear - 1;
      agemonth := agemonth + 12;
    }
    ageyear := currentyear - birthyear;
    assert 12 * ageyear + agemonth == ElapsedMonths(now, dob);
    r := Age(ageyear, agemonth, ageday);
  }

  // ---------------------------------------------------------------------
  // Properties

  /** The year field written as the form derives it: the year difference,
      less one when the day borrow wraps past January, less one when the
      month difference is wrapped by +12; the two wraps never both happen. */
  lemma YearWraps(onset: Date, birth: Date)
    requires ValidDate(onset) && ValidDate(birth) && !Before(onset, birth)
    ensures var dayWrap := onset.day < birth.day && onset.month == 1;
            var month := if onset.day < birth.day then PrevMonth(onset.year, onset.month).1 else onset.month;
            var monthWrap := month < birth.month;
            && !(dayWrap && monthWrap)
            && ElapsedMonths(onset, birth) / 12
               == onset.year - birth.year - (if dayWrap then 1 else 0) - (if monthWrap then 1 else 0)
  {
    var dayWrap := onset.day < birth.day && onset.month == 1;
    var month := if onset.day < birth.day then PrevMonth(onset.year, onset.month).1 else onset.month;
    var monthWrap := month < birth.month;
    var q := onset.year - birth.year - (if dayWrap then 1 else 0) - (if monthWrap then 1 else 0);
    var rem := month - birth.month + (if monthWrap then 12 else 0);
    assert ElapsedMonths(onset, birth) == 12 * q + rem;
    assert 0 <= rem < 12;
  }

  /** The day field is not always a day count: born on the 31st, with onset
      on 1 March of a common year, it is -2 (23 years, 1 month, -2 days). */
  lemma NegativeDayExample()
    ensures DayPart(Date(2023, 3, 1), Date(2000, 1, 31)) == -2
    ensures ElapsedMonths(Date(2023, 3, 1), Date(2000, 1, 31)) == 12 * 23 + 1
  {
  }

  function Min(a: int, b: int): int {
    if a <= b then a else b
  }

  /** The month anniversary the day count starts from: the birth day in the
      onset month when it is reached, otherwise the birth day in the previous
      month, clamped to that month's length (28 February for a birth on the
      31st and an onset in March). */
  function Anniversary(onset: Date, birth: Date): Date
    requires 1 <= onset.month <= 12
  {
    if onset.day >= birth.day then Date(onset.year, onset.month, birth.day)
    else
      var (y, m) := PrevMonth(onset.year, onset.month);
      Date(y, m, Min(birth.day, DaysInMonth(y, m)))
  }

  /** The day field with the birth day clamped to the length of the borrowed
      month: days since the month anniversary `Anniversary`. */
  function CorrectedDayPart(onset: Date, birth: Date): (r: int)
    requires ValidDate(onset)
    ensures r >= 0
    ensures onset.day >= birth.day ==> r == onset.day - birth.day
    ensures onset.day < birth.day ==>
              var l := BorrowedMonthLength(onset);
              r == onset.day - Min(birth.day, l) + l
  {
    if onset.day >= birth.day then onset.day - birth.day
    else
      var l := BorrowedMonthLength(onset);
      onset.day - Min(birth.day, l) + l
  }

  /** The age with the corrected day field. */
  function CorrectedAge(onset: Option<Date>, birth: Option<Date>): (r: AgeFields)
    requires onset.Some? ==> ValidDate(onset.value)
    requires birth.Some? ==> ValidDate(birth.value)
    ensures r.Cleared? <==> onset.None? || birth.None? || Before(onset.value, birth.value)
    ensures r.Age? ==> r.days >= 0 && r.years >= 0 && 0 <= r.months <= 11
    ensures r.Age? && onset.value.day >= birth.value.day ==>
              r.days == onset.value.day - birth.value.day
    ensures r.Age? && onset.value.day < birth.value.day ==>
              var l := BorrowedMonthLength(onset.value);
              r.days == onset.value.day - Min(birth.value.day, l) + l
  {
    if onset.None? || birth.None? || Before(onset.value, birth.value) then Cleared
    else
      var e := ElapsedMonths(onset.value, birth.value);
      Age(e / 12, e % 12, CorrectedDayPart(onset.value, birth.value))
  }

  /** Born 31 January 2000, the corrected day count on 1 to 4 March 2023
      runs 1, 2, 3, 4 from the clamped anniversary, 28 February; born
      29 January it is 1 on 1 March (the form gives 0). */
  lemma CorrectedExample()
    ensures CorrectedAge(Some(Date(2023, 3, 1)), Some(Date(2000, 1, 31))) == Age(23, 1, 1)
    ensures CorrectedAge(Some(Date(2023, 3, 4)), Some(Date(2000, 1, 31))) == Age(23, 1, 4)
    ensures CorrectedAge(Some(Date(2023, 3, 1)), Some(Date(2000, 1, 29))) == Age(23, 1, 1)
    ensures DayPart(Date(2023, 3, 1), Date(2000, 1, 29)) == 0
  {
  }

  /** The corrected age keeps the years and months of the form, and its day
      count is never below the form's: the two agree exactly unless the day
      is borrowed from a month shorter than the birth day. */
  lemma CorrectedAgeSound(onset: Date, birth: Date)
    requires ValidDate(onset) && ValidDate(birth) && !Before(onset, birth)
    ensures var r := CorrectedAge(Some(onset), Some(birth));
            && r.Age?
            && r.years == ElapsedMonths(onset, birth) / 12
            && r.months == ElapsedMonths(onset, birth) % 12
            && r.days >= DayPart(onset, birth)
            && (r.days == DayPart(onset, birth) <==>
                  !(onset.day < birth.day && birth.day > BorrowedMonthLength(onset)))
  {
    assert ElapsedMonths(onset, birth) >= 0;
  }

  /** The corrected days are the days since the anniversary `Anniversary`:
      the birth day in the onset month when reached, otherwise in the
      previous month clamped to its length; it lies ElapsedMonths calendar
      months after the birth month. */
  lemma CorrectedDaysSinceAnniversary(onset: Date, birth: Date)
    requires ValidDate(onset) && ValidDate(birth) && !Before(onset, birth)
    ensures var a := Anniversary(onset, birth);
            && ValidDate(a)
            && a.day == Min(birth.day, DaysInMonth(a.year, a.month))
            && 12 * a.year + a.month == 12 * birth.year + birth.month + ElapsedMonths(onset, birth)
            && AddDays(a, CorrectedDayPart(onset, birth)) == onset
  {
    var a := Anniversary(onset, birth);
    if onset.day >= birth.day {
      AddDaysWithinMonth(a, onset.day - birth.day);
    } else {
      var (y, m) := PrevMonth(onset.year, onset.month);
      var l := DaysInMonth(y, m);
      var c := Min(birth.day, l);
      assert a == Date(y, m, c);
      AddDaysSplit(a, l - c, onset.day);
      AddDaysWithinMonth(a, l - c);
      var first := Date(onset.year, onset.month, 1);
      assert NextDay(Date(y, m, l)) == first;
      AddDaysSplit(Date(y, m, l), 1, onset.day - 1);
      AddDaysWithinMonth(first, onset.day - 1);
    }
  }

  /** Within one month of age the corrected day count moves with the
      calendar. Inside a calendar month, unless the next day is the birth
      day's anniversary, the next day has the same whole months elapsed and
      one more corrected day. */
  lemma CorrectedDaysStepInMonth(onset: Date, birth: Date)
    requires ValidDate(onset) && ValidDate(birth) && !Before(onset, birth)
    requires onset.day < DaysInMonth(onset.year, onset.month) && onset.day + 1 != birth.day
    ensures var next := Date(onset.year, onset.month, onset.day + 1);
            && next == NextDay(onset)
            && ElapsedMonths(next, birth) == ElapsedMonths(onset, birth)
            && CorrectedDayPart(next, birth) == CorrectedDayPart(onset, birth) + 1
  {
  }

  /** Across the end of a month, for a birth day from 2 up to that month's
      length, the first of the next month has the same whole months elapsed
      and one more corrected day. */
  lemma CorrectedDaysStepAcrossMonths(onset: Date, birth: Date)
    requires ValidDate(onset) && ValidDate(birth) && !Before(onset, birth)
    requires onset.day == DaysInMonth(onset.year, onset.month) && 1 < birth.day <= onset.day
    ensures var next := NextDay(onset);
            && next.day == 1
            && ElapsedMonths(next, birth) == ElapsedMonths(onset, birth)
            && CorrectedDayPart(next, birth) == CorrectedDayPart(onset, birth) + 1
  {
    var next := NextDay(onset);
    assert PrevMonth(next.year, next.month) == (onset.year, onset.month);
  }
}
