/**
 * Civil dates and epoch days on the proleptic Gregorian calendar. The closed-form arithmetic is
 * stated for every integer year; the four-digit guards come on top of it.
 */
module CivilDate {
  import opened Wrappers

  datatype Civil = Civil(year: int, month: int, day: int)

  datatype DateError = UnsupportedMonth | InvalidDate | UnsafeInteger | OutsideFourDigits

  const MAX_SAFE_INTEGER := 9_007_199_254_740_991

  predicate IsLeapYear(year: int) {
    year % 4 == 0 && (year % 100 != 0 || year % 400 == 0)
  }

  function MonthLength(year: int, month: int): int {
    if month == 2 then if IsLeapYear(year) then 29 else 28
    else if month == 4 || month == 6 || month == 9 || month == 11 then 30 else 31
  }

  predicate Valid(c: Civil) {
    1 <= c.month <= 12 && 1 <= c.day <= MonthLength(c.year, c.month)
  }

  predicate Before(a: Civil, b: Civil) {
    a.year < b.year || (a.year == b.year && (a.month < b.month || (a.month == b.month && a.day < b.day)))
  }

  predicate AtMost(a: Civil, b: Civil) {
    a == b || Before(a, b)
  }

  // The closed forms.

  function DayFromCivil(c: Civil): int {
    var year := c.year - if c.month <= 2 then 1 else 0;
    var era := year / 400;
    var yearOfEra := year - era * 400;
    var shiftedMonth := c.month + if c.month > 2 then -3 else 9;
    var dayOfYear := (153 * shiftedMonth + 2) / 5 + c.day - 1;
    var dayOfEra := yearOfEra * 365 + yearOfEra / 4 - yearOfEra / 100 + dayOfYear;
    era * 146_097 + dayOfEra - 719_468
  }

  function YearOfEra(dayOfEra: int): int {
    (dayOfEra - dayOfEra / 1_460 + dayOfEra / 36_524 - dayOfEra / 146_096) / 365
  }

  function CivilFromDay(epochDay: int): Civil {
    var shifted := epochDay + 719_468;
    var era := shifted / 146_097;
    var dayOfEra := shifted - era * 146_097;
    CivilFromEra(era, dayOfEra)
  }

  function CivilFromEra(era: int, dayOfEra: int): Civil {
    var yearOfEra := YearOfEra(dayOfEra);
    CivilFromParts(era, yearOfEra, dayOfEra - (365 * yearOfEra + yearOfEra / 4 - yearOfEra / 100))
  }

  function CivilFromParts(era: int, yearOfEra: int, dayOfYear: int): Civil {
    var monthPrime := (5 * dayOfYear + 2) / 153;
    var day := dayOfYear - (153 * monthPrime + 2) / 5 + 1;
    var month := monthPrime + if monthPrime < 10 then 3 else -9;
    Civil(yearOfEra + era * 400 + if month <= 2 then 1 else 0, month, day)
  }

  // The reference: whole years since 1970, whole months of the year, days of the month.

  function YearLength(year: int): int {
    if IsLeapYear(year) then 366 else 365
  }

  function YearStart(year: int): int
    decreases if year < 1970 then 1970 - year else year - 1970
  {
    if year == 1970 then 0
    else if year > 1970 then YearStart(year - 1) + YearLength(year - 1)
    else YearStart(year + 1) - YearLength(year)
  }

  function MonthStart(year: int, month: int): int
    requires 1 <= month <= 12
  {
    if month == 1 then 0 else MonthStart(year, month - 1) + MonthLength(year, month - 1)
  }

  function DayCount(c: Civil): int
    requires 1 <= c.month <= 12
  {
    YearStart(c.year) + MonthStart(c.year, c.month) + c.day - 1
  }

  function NextDay(c: Civil): Civil {
    if c.day < MonthLength(c.year, c.month) then c.(day := c.day + 1)
    else if c.month < 12 then Civil(c.year, c.month + 1, 1)
    else Civil(c.year + 1, 1, 1)
  }

  // Days before a year, counted from the start of year 1.
  function LeapDays(year: int): int {
    year / 4 - year / 100 + year / 400
  }

  lemma LeapStep(year: int)
    ensures LeapDays(year) - LeapDays(year - 1) == if IsLeapYear(year) then 1 else 0
  {
    DivStep(year, 4);
    DivStep(year, 100);
    DivStep(year, 400);
  }

  lemma DivStep(n: int, d: int)
    requires d == 4 || d == 100 || d == 400
    ensures n / d - (n - 1) / d == if n % d == 0 then 1 else 0
  {
  }

  lemma {:induction false} YearStartClosed(year: int)
    ensures YearStart(year) == 365 * (year - 1) + LeapDays(year - 1) - 719_162
    decreases if year < 1970 then 1970 - year else year - 1970
  {
    if year > 1970 {
      YearStartClosed(year - 1);
      LeapStep(year - 1);
    } else if year < 1970 {
      YearStartClosed(year + 1);
      LeapStep(year);
    }
  }

  lemma MonthStarts(year: int)
    ensures var leap := if IsLeapYear(year) then 1 else 0;
      && MonthStart(year, 1) == 0 && MonthStart(year, 2) == 31 && MonthStart(year, 3) == 59 + leap
      && MonthStart(year, 4) == 90 + leap && MonthStart(year, 5) == 120 + leap && MonthStart(year, 6) == 151 + leap
      && MonthStart(year, 7) == 181 + leap && MonthStart(year, 8) == 212 + leap && MonthStart(year, 9) == 243 + leap
      && MonthStart(year, 10) == 273 + leap && MonthStart(year, 11) == 304 + leap && MonthStart(year, 12) == 334 + leap
      && MonthStart(year, 12) + MonthLength(year, 12) == YearLength(year)
  {
    assert MonthStart(year, 3) == MonthStart(year, 2) + MonthLength(year, 2);
    assert MonthStart(year, 5) == MonthStart(year, 4) + 30;
    assert MonthStart(year, 7) == MonthStart(year, 6) + 30;
    assert MonthStart(year, 9) == MonthStart(year, 8) + 31;
    assert MonthStart(year, 11) == MonthStart(year, 10) + 31;
  }

  lemma EraForm(year: int)
    ensures var era := year / 400;
      var yearOfEra := year - era * 400;
      && 0 <= yearOfEra < 400
      && era * 146_097 + yearOfEra * 365 + yearOfEra / 4 - yearOfEra / 100 == 365 * year + LeapDays(year)
  {
    var era := year / 400;
    var yearOfEra := year - era * 400;
    assert year / 4 == 100 * era + yearOfEra / 4;
    assert year / 100 == 4 * era + yearOfEra / 100;
  }

  /** The closed form counts days: it is the number of days since 1970-01-01. */
  lemma ClosedFormCountsDays(c: Civil)
    requires 1 <= c.month <= 12
    ensures DayFromCivil(c) == DayCount(c)
  {
    hide YearStart, MonthStart, LeapDays;
    EraForm(c.year - if c.month <= 2 then 1 else 0);
    YearStartClosed(c.year);
    MonthStarts(c.year);
    LeapStep(c.year);
  }

  // The inverse.

  // The last day, counted from 1 March, of a year that begins then.
  function LastDayOfYear(year: int): int {
    if IsLeapYear(year + 1) then 365 else 364
  }

  function EraDays(yearOfEra: int): int {
    365 * yearOfEra + yearOfEra / 4 - yearOfEra / 100
  }

  /** The four divisions find the year of the era a day falls in. */
  lemma YearOfEraFinds(dayOfEra: int)
    requires 0 <= dayOfEra < 146_097
    ensures var y := YearOfEra(dayOfEra);
      0 <= y < 400 && EraDays(y) <= dayOfEra <= EraDays(y) + LastDayOfYear(y)
  {
    var c := if dayOfEra == 146_096 then 3 else dayOfEra / 36_524;
    var r := dayOfEra - 36_524 * c;
    var q := r / 1_461;
    var s := r - 1_461 * q;
    var t := if s == 1_460 then 3 else s / 365;
    var u := s - 365 * t;
    YearOfEraAt(c, q, t, u);
  }

  lemma YearOfEraAt(c: int, q: int, t: int, u: int)
    requires 0 <= c < 4 && 0 <= q <= 24 && 0 <= t < 4 && 0 <= u <= 365
    requires u == 365 ==> t == 3 && (q < 24 || c == 3)
    ensures var dayOfEra, y := 36_524 * c + 1_461 * q + 365 * t + u, 100 * c + 4 * q + t;
      YearOfEra(dayOfEra) == y && EraDays(y) <= dayOfEra <= EraDays(y) + LastDayOfYear(y)
  {
    var dayOfEra, y := 36_524 * c + 1_461 * q + 365 * t + u, 100 * c + 4 * q + t;
    assert y / 4 == 25 * c + q;
    assert y / 100 == c;
    var e := if 24 * c + q + 365 * t + u >= 1_460 then 1 else 0;
    assert dayOfEra / 1_460 == 25 * c + q + e;
    var f := if dayOfEra == 146_096 then 1 else 0;
    assert dayOfEra / 36_524 == c + f;
    assert dayOfEra / 146_096 == f;
    assert 0 <= u - e < 365;
  }

  lemma MonthsOfYear(year: int, dayOfYear: int)
    requires 0 <= dayOfYear <= LastDayOfYear(year)
    ensures Valid(CivilFromParts(0, year, dayOfYear)) && 0 <= (5 * dayOfYear + 2) / 153 < 12
  {
    var monthPrime := (5 * dayOfYear + 2) / 153;
    assert monthPrime in {0, 1, 2, 3, 4, 5, 6, 7, 8, 9, 10, 11};
  }

  lemma LeapRepeats(year: int, era: int)
    ensures IsLeapYear(year + era * 400) == IsLeapYear(year)
  {
    QuarterRepeats(year, 100 * era);
    CenturyRepeats(year, 4 * era);
    EraRepeats(year, era);
  }

  lemma QuarterRepeats(n: int, k: int)
    ensures (n + 4 * k) % 4 == n % 4
  {
  }

  lemma CenturyRepeats(n: int, k: int)
    ensures (n + 100 * k) % 100 == n % 100
  {
  }

  lemma EraRepeats(n: int, k: int)
    ensures (n + 400 * k) % 400 == n % 400
  {
  }

  lemma DayFromParts(era: int, yearOfEra: int, dayOfYear: int)
    requires 0 <= yearOfEra < 400 && 0 <= dayOfYear <= LastDayOfYear(yearOfEra)
    ensures var c := CivilFromParts(era, yearOfEra, dayOfYear);
      Valid(c) && DayFromCivil(c) == era * 146_097 + EraDays(yearOfEra) + dayOfYear - 719_468
  {
    MonthsOfYear(yearOfEra, dayOfYear);
    LeapRepeats(yearOfEra, era);
    LeapRepeats(yearOfEra + 1, era);
    assert (yearOfEra + era * 400) / 400 == era;
  }

  lemma DayFromEra(era: int, dayOfEra: int)
    requires 0 <= dayOfEra < 146_097
    ensures var c := CivilFromEra(era, dayOfEra);
      Valid(c) && DayFromCivil(c) == era * 146_097 + dayOfEra - 719_468
  {
    YearOfEraFinds(dayOfEra);
    DayFromParts(era, YearOfEra(dayOfEra), dayOfEra - EraDays(YearOfEra(dayOfEra)));
  }

  /** Every integer is the day of a valid date, and converting it there and back changes nothing. */
  lemma DayRoundTrip(epochDay: int)
    ensures Valid(CivilFromDay(epochDay)) && DayFromCivil(CivilFromDay(epochDay)) == epochDay
  {
    var shifted := epochDay + 719_468;
    DayFromEra(shifted / 146_097, shifted - shifted / 146_097 * 146_097);
  }

  // Order.

  lemma {:induction false} YearStartsIncrease(a: int, b: int)
    requires a < b
    ensures YearStart(a) + YearLength(a) <= YearStart(b)
    decreases b - a
  {
    YearStartClosed(a);
    YearStartClosed(a + 1);
    LeapStep(a);
    if a + 1 < b {
      YearStartsIncrease(a + 1, b);
    }
  }

  lemma {:induction false} MonthStartsIncrease(year: int, m: int, n: int)
    requires 1 <= m < n <= 12
    ensures MonthStart(year, m) + MonthLength(year, m) <= MonthStart(year, n)
    decreases n - m
  {
    if m + 1 < n {
      MonthStartsIncrease(year, m, n - 1);
    }
  }

  lemma WithinYear(c: Civil)
    requires Valid(c)
    ensures 0 <= MonthStart(c.year, c.month) + c.day - 1 < YearLength(c.year)
  {
    MonthStarts(c.year);
    if c.month < 12 {
      MonthStartsIncrease(c.year, c.month, 12);
    }
  }

  lemma EarlierIsSmaller(a: Civil, b: Civil)
    requires Valid(a) && Valid(b) && Before(a, b)
    ensures DayFromCivil(a) < DayFromCivil(b)
  {
    ClosedFormCountsDays(a);
    ClosedFormCountsDays(b);
    WithinYear(a);
    WithinYear(b);
    if a.year < b.year {
      YearStartsIncrease(a.year, b.year);
    } else if a.month < b.month {
      MonthStartsIncrease(a.year, a.month, b.month);
    }
  }

  /** Epoch days are ordered exactly as dates are. */
  lemma OrderPreserved(a: Civil, b: Civil)
    requires Valid(a) && Valid(b)
    ensures Before(a, b) <==> DayFromCivil(a) < DayFromCivil(b)
    ensures a == b <==> DayFromCivil(a) == DayFromCivil(b)
  {
    if Before(a, b) {
      EarlierIsSmaller(a, b);
    } else if Before(b, a) {
      EarlierIsSmaller(b, a);
    } else {
      assert a == b;
    }
  }

  /** The next civil day is always the next epoch day. */
  lemma NextDayIsOneLater(c: Civil)
    requires Valid(c)
    ensures Valid(NextDay(c)) && DayFromCivil(NextDay(c)) == DayFromCivil(c) + 1
  {
    hide DayFromCivil, LeapDays;
    ClosedFormCountsDays(c);
    ClosedFormCountsDays(NextDay(c));
    if c.day == MonthLength(c.year, c.month) && c.month == 12 {
      MonthStarts(c.year);
      YearStartClosed(c.year);
      YearStartClosed(c.year + 1);
      LeapStep(c.year);
    }
  }

  /** A valid date survives the round trip through its epoch day. */
  lemma CivilRoundTrip(c: Civil)
    requires Valid(c)
    ensures CivilFromDay(DayFromCivil(c)) == c
  {
    DayRoundTrip(DayFromCivil(c));
    OrderPreserved(CivilFromDay(DayFromCivil(c)), c);
  }

  // The guarded operations.

  predicate FourDigits(c: Civil) {
    Valid(c) && 1 <= c.year <= 9999
  }

  const FIRST_DAY := -719_162
  const LAST_DAY := 2_932_896

  function DaysInMonth(year: int, month: int): Result<int, DateError> {
    if year < 1 || year > 9999 || month < 1 || month > 12 then Err(UnsupportedMonth)
    else Ok(MonthLength(year, month))
  }

  function CivilDateToEpochDay(c: Civil): Result<int, DateError> {
    if FourDigits(c) then Ok(DayFromCivil(c)) else Err(InvalidDate)
  }

  function EpochDayToCivilDate(epochDay: int): Result<Civil, DateError> {
    if epochDay < -MAX_SAFE_INTEGER || epochDay > MAX_SAFE_INTEGER then Err(UnsafeInteger)
    else
      var c := CivilFromDay(epochDay);
      if c.year < 1 || c.year > 9999 then Err(OutsideFourDigits) else Ok(c)
  }

  function AddCivilDays(c: Civil, days: int): Result<Civil, DateError> {
    if days < -MAX_SAFE_INTEGER || days > MAX_SAFE_INTEGER then Err(UnsafeInteger)
    else
      var start :- CivilDateToEpochDay(c);
      EpochDayToCivilDate(start + days)
  }

  /** Four-digit dates are exactly the days between 0001-01-01 and 9999-12-31. */
  lemma FourDigitRange(c: Civil)
    requires Valid(c)
    ensures FourDigits(c) <==> FIRST_DAY <= DayFromCivil(c) <= LAST_DAY
  {
    hide DayFromCivil;
    FirstAndLastDay();
    OrderPreserved(c, Civil(1, 1, 1));
    OrderPreserved(c, Civil(9999, 12, 31));
  }

  lemma FirstAndLastDay()
    ensures DayFromCivil(Civil(1, 1, 1)) == FIRST_DAY
    ensures DayFromCivil(Civil(9999, 12, 31)) == LAST_DAY
  {
    FirstDay();
    LastDay();
    hide DayFromCivil;
  }

  lemma FirstDay()
    ensures DayFromCivil(Civil(1, 1, 1)) == -719_162
  {
    assert (153 * 10 + 2) / 5 == 306;
  }

  lemma LastDay()
    ensures DayFromCivil(Civil(9999, 12, 31)) == 2_932_896
  {
    assert 9999 / 400 == 24 && 399 / 4 == 99 && 399 / 100 == 3 && (153 * 9 + 2) / 5 == 275;
  }

  /** Between four-digit dates and their day range the guarded conversions are mutually inverse. */
  lemma GuardedRoundTrip(c: Civil, epochDay: int)
    ensures EpochDayToCivilDate(epochDay) == Ok(c) <==> CivilDateToEpochDay(c) == Ok(epochDay)
    ensures EpochDayToCivilDate(epochDay).Ok? <==> FIRST_DAY <= epochDay <= LAST_DAY
  {
    DayRoundTrip(epochDay);
    FourDigitRange(CivilFromDay(epochDay));
    if Valid(c) {
      CivilRoundTrip(c);
      FourDigitRange(c);
    }
  }

  /** Adding days moves the epoch day by exactly that many, or fails because the result has no four-digit year. */
  lemma AddDaysMoves(c: Civil, days: int)
    requires FourDigits(c)
    ensures AddCivilDays(c, days).Ok? <==> FIRST_DAY <= DayFromCivil(c) + days <= LAST_DAY
    ensures AddCivilDays(c, days).Ok? ==>
      FourDigits(AddCivilDays(c, days).value) && DayFromCivil(AddCivilDays(c, days).value) == DayFromCivil(c) + days
  {
    FourDigitRange(c);
    var sum := DayFromCivil(c) + days;
    DayRoundTrip(sum);
    GuardedRoundTrip(CivilFromDay(sum), sum);
    FourDigitRange(CivilFromDay(sum));
  }

  /** The last day of a month is the greatest that makes a date, and there is one for the months of four-digit years. */
  lemma DaysInMonthExactly(year: int, month: int)
    ensures DaysInMonth(year, month).Ok? <==> FourDigits(Civil(year, month, 1))
    ensures DaysInMonth(year, month).Ok? ==>
      forall day :: Valid(Civil(year, month, day)) <==> 1 <= day <= DaysInMonth(year, month).value
  {
  }

  /** Which error adding days gives: an unsafe integer, then a date that is none, then a day without four-digit year. */
  lemma AddDaysFailsExactly(c: Civil, days: int)
    ensures AddCivilDays(c, days) == Err(UnsafeInteger) <==>
      || !SafeInteger(days) || (FourDigits(c) && !SafeInteger(DayFromCivil(c) + days))
    ensures AddCivilDays(c, days) == Err(InvalidDate) <==> SafeInteger(days) && !FourDigits(c)
    ensures AddCivilDays(c, days) == Err(OutsideFourDigits) <==>
      && SafeInteger(days) && FourDigits(c) && SafeInteger(DayFromCivil(c) + days)
      && !(-719_162 <= DayFromCivil(c) + days <= 2_932_896)
  {
    hide DayFromCivil, CivilFromDay;
    if FourDigits(c) {
      AddDaysMoves(c, days);
    }
  }

  /** At most 2^53 - 1 in magnitude. */
  predicate SafeInteger(n: int) {
    -9_007_199_254_740_991 <= n <= 9_007_199_254_740_991
  }

  /** Adding days in two steps is adding them at once, and the way back undoes the way there. */
  lemma AddDaysComposes(c: Civil, a: int, b: int)
    requires FourDigits(c) && AddCivilDays(c, a).Ok?
    requires FIRST_DAY <= DayFromCivil(c) + a + b <= LAST_DAY
    ensures AddCivilDays(AddCivilDays(c, a).value, b) == AddCivilDays(c, a + b)
    ensures AddCivilDays(AddCivilDays(c, a).value, -a) == Ok(c)
  {
    AddDaysMoves(c, a);
    AddDaysMoves(c, a + b);
    AddDaysMoves(AddCivilDays(c, a).value, b);
    AddDaysMoves(AddCivilDays(c, a).value, -a);
    FourDigitRange(c);
    OrderPreserved(AddCivilDays(AddCivilDays(c, a).value, b).value, AddCivilDays(c, a + b).value);
    OrderPreserved(AddCivilDays(AddCivilDays(c, a).value, -a).value, c);
  }
}
