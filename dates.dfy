/** Calendar dates and `parse_age`: whole years from a date of birth to a given day. */
module Dates {
  import opened Wrappers

  datatype Date = Date(year: int, month: int, day: int)

  predicate IsLeapYear(y: int) {
    y % 4 == 0 && (y % 100 != 0 || y % 400 == 0)
  }

  function DaysInMonth(y: int, m: int): int {
    if m == 2 then (if IsLeapYear(y) then 29 else 28)
    else if m == 4 || m == 6 || m == 9 || m == 11 then 30
    else 31
  }

  /** A date Python's `datetime.date` accepts. */
  predicate ValidDate(d: Date) {
    1 <= d.year <= 9999 && 1 <= d.month <= 12 && 1 <= d.day <= DaysInMonth(d.year, d.month)
  }

  /** Lexicographic order on (month, day): Python's tuple comparison `(m1, d1) < (m2, d2)`. */
  predicate MonthDayBefore(m1: int, d1: int, m2: int, d2: int) {
    m1 < m2 || (m1 == m2 && d1 < d2)
  }

  /** Chronological order of dates. */
  predicate DateLe(a: Date, b: Date) {
    a.year < b.year || (a.year == b.year && !MonthDayBefore(b.month, b.day, a.month, a.day))
  }

  lemma DateLeTransitive(a: Date, b: Date, c: Date)
    requires DateLe(a, b) && DateLe(b, c)
    ensures DateLe(a, c)
  {
  }

  lemma DateLeTotal(a: Date, b: Date)
    ensures DateLe(a, b) || DateLe(b, a)
  {
  }

  /**
   * `parse_age(dob)` evaluated on day `today`. `dob` is the outcome of parsing the stored ISO
   * string: `None` stands for a missing, empty or unparseable string, all of which give `None`.
   * Otherwise the years between the dates, one less when this year's (month, day) has not yet
   * reached the birthday's, and never below 0.
   */
  function ParseAge(dob: Option<Date>, today: Date): (r: Option<int>)
    ensures r.None? <==> dob.None?
    ensures r.Some? ==> r.value >= 0
    ensures r.Some? && !DateLe(dob.value, today) ==> r.value == 0
  {
    match dob
    case None => None
    case Some(b) =>
      var years := today.year - b.year
                   - (if MonthDayBefore(today.month, today.day, b.month, b.day) then 1 else 0);
      Some(if years >= 0 then years else 0)
  }

  /** The `k`-th anniversary of `b` as a (year, month, day) triple, compared like dates. */
  function Anniversary(b: Date, k: int): Date {
    Date(b.year + k, b.month, b.day)
  }

  /**
   * For a date of birth not in the future, the age is the number of anniversaries reached:
   * the `age`-th anniversary is on or before today and the next one is after today.
   */
  lemma AgeCountsAnniversaries(b: Date, today: Date)
    requires DateLe(b, today)
    ensures var age := ParseAge(Some(b), today).value;
            DateLe(Anniversary(b, age), today) && !DateLe(Anniversary(b, age + 1), today)
  {
  }

  /** On the birthday itself the year is already counted. */
  lemma BirthdayCountsOnTheDay(b: Date, today: Date)
    requires today.month == b.month && today.day == b.day && today.year >= b.year
    ensures ParseAge(Some(b), today) == Some(today.year - b.year)
  {
  }

  /**
   * Someone born on 29 February gains a year on 1 March in a common year: on 28 February of
   * such a year the birthday is still ahead.
   */
  lemma LeapDayBirthday(birthYear: int, year: int)
    requires year > birthYear && !IsLeapYear(year)
    ensures !ValidDate(Date(year, 2, 29))
    ensures ParseAge(Some(Date(birthYear, 2, 29)), Date(year, 2, 28)) == Some(year - birthYear - 1)
    ensures ParseAge(Some(Date(birthYear, 2, 29)), Date(year, 3, 1)) == Some(year - birthYear)
  {
  }
}
