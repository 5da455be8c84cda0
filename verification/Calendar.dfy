/** Days to civil dates, the timestamps of history rows, and their order. */
module Calendar {
  import opened Common

  datatype Date = Date(year: int, month: int, day: int)

  // ------------------------------------------------------- the conversion

  /** Integer division of the implementation language: towards zero. */
  function Quotient(a: int, b: int): int
    requires b > 0
  {
    if a >= 0 then a / b else -((-a) / b)
  }

  function CivilDateFromDays(daysSinceEpoch: int): Date {
    var z := daysSinceEpoch + 719468;
    var era := Quotient(if z >= 0 then z else z - 146096, 146097);
    var dayOfEra := z - era * 146097;
    var yearOfEra := Quotient(dayOfEra - Quotient(dayOfEra, 1460) + Quotient(dayOfEra, 36524) - Quotient(dayOfEra, 146096),
                              365);
    var dayOfYear := dayOfEra - (365 * yearOfEra + Quotient(yearOfEra, 4) - Quotient(yearOfEra, 100));
    var monthPrime := Quotient(5 * dayOfYear + 2, 153);
    var day := dayOfYear - Quotient(153 * monthPrime + 2, 5) + 1;
    var month := monthPrime + (if monthPrime < 10 then 3 else -9);
    Date(yearOfEra + era * 400 + (if month <= 2 then 1 else 0), month, day)
  }

  // ---------------------------------------------- the Gregorian calendar

  predicate IsLeap(year: int) { year % 4 == 0 && (year % 100 != 0 || year % 400 == 0) }

  function DaysInMonth(year: int, month: int): int {
    if month == 2 then (if IsLeap(year) then 29 else 28)
    else if month == 4 || month == 6 || month == 9 || month == 11 then 30
    else 31
  }

  predicate ValidDate(date: Date) {
    1 <= date.month <= 12 && 1 <= date.day <= DaysInMonth(date.year, date.month)
  }

  function NextDay(date: Date): Date {
    if date.day < DaysInMonth(date.year, date.month) then date.(day := date.day + 1)
    else if date.month < 12 then Date(date.year, date.month + 1, 1)
    else Date(date.year + 1, 1, 1)
  }

  function DaysBeforeYear(year: int): int {
    365 * (year - 1) + (year - 1) / 4 - (year - 1) / 100 + (year - 1) / 400
  }

  function DaysBeforeMonth(year: int, month: int): int
    decreases month
  {
    if month <= 1 then 0 else DaysBeforeMonth(year, month - 1) + DaysInMonth(year, month - 1)
  }

  /** Days from 1970-01-01, counted through years, months and days. */
  function DayNumber(date: Date): int {
    DaysBeforeYear(date.year) + DaysBeforeMonth(date.year, date.month) + date.day - 1 - 719162
  }

  // ---------------------------------------- years that start in March

  /** A day by its 400-year era, century, four-year cycle, year and day, where
      years start in March. */
  datatype March = March(era: int, century: int, cycle: int, year: int, day: int)

  predicate ValidMarch(m: March) {
    && 0 <= m.century <= 3 && 0 <= m.cycle <= 24 && 0 <= m.year <= 3 && 0 <= m.day <= 365
    && (m.day == 365 ==> m.year == 3 && (m.cycle == 24 ==> m.century == 3))
  }

  function YearOfEra(m: March): int { 100 * m.century + 4 * m.cycle + m.year }

  function DayOfEra(m: March): int { 36524 * m.century + 1461 * m.cycle + 365 * m.year + m.day }

  /** The day of the year on which a month starts, counting from March. */
  function Start(monthPrime: int): int {
    if monthPrime <= 0 then 0 else if monthPrime == 1 then 31 else if monthPrime == 2 then 61
    else if monthPrime == 3 then 92 else if monthPrime == 4 then 122 else if monthPrime == 5 then 153
    else if monthPrime == 6 then 184 else if monthPrime == 7 then 214 else if monthPrime == 8 then 245
    else if monthPrime == 9 then 275 else if monthPrime == 10 then 306 else if monthPrime == 11 then 337
    else 366
  }

  function MonthFromMarch(monthPrime: int): int { monthPrime + (if monthPrime < 10 then 3 else -9) }

  function MonthPrime(day: int): int { (5 * day + 2) / 153 }

  function FromMarch(m: March): Date {
    var month := MonthFromMarch(MonthPrime(m.day));
    Date(YearOfEra(m) + m.era * 400 + (if month <= 2 then 1 else 0), month, m.day - Start(MonthPrime(m.day)) + 1)
  }

  lemma StartIs(monthPrime: int)
    requires 0 <= monthPrime <= 11
    ensures (153 * monthPrime + 2) / 5 == Start(monthPrime)
  {
  }

  lemma MonthOf(day: int)
    requires 0 <= day <= 365
    ensures var mp := MonthPrime(day); 0 <= mp <= 11 && Start(mp) <= day < Start(mp + 1)
  {
  }

  lemma DivIs(a: int, b: int, q: int, r: int)
    requires b > 0 && a == b * q + r && 0 <= r < b
    ensures a / b == q
  {
    var apart := a / b - q;
    MulGrows(b, apart);
    assert b * apart == r - a % b;
  }

  lemma MulGrows(b: int, x: int)
    requires b > 0
    ensures x >= 1 ==> b * x >= b
    ensures x <= -1 ==> b * x <= -b
  {
  }

  /** Every day has such a decomposition. */
  lemma ToMarch(daysSinceEpoch: int) returns (m: March)
    ensures ValidMarch(m) && daysSinceEpoch + 719468 == 146097 * m.era + DayOfEra(m)
  {
    var z := daysSinceEpoch + 719468;
    var era, doe := z / 146097, z % 146097;
    var century := if doe / 36524 < 3 then doe / 36524 else 3;
    var inCentury := doe - 36524 * century;
    var cycle := inCentury / 1461;
    var inCycle := inCentury - 1461 * cycle;
    var year := if inCycle / 365 < 3 then inCycle / 365 else 3;
    m := March(era, century, cycle, year, inCycle - 365 * year);
  }

  /** The era is the floor quotient although the division truncates. */
  lemma EraIs(z: int, era: int, dayOfEra: int)
    requires z == 146097 * era + dayOfEra && 0 <= dayOfEra < 146097
    ensures Quotient(if z >= 0 then z else z - 146096, 146097) == era
  {
    if z >= 0 {
      DivIs(z, 146097, era, dayOfEra);
    } else {
      DivIs(146096 - z, 146097, -era, 146096 - dayOfEra);
    }
  }

  lemma YearIs(m: March)
    requires ValidMarch(m)
    ensures var d := DayOfEra(m);
            (d - d / 1460 + d / 36524 - d / 146096) / 365 == YearOfEra(m) && 0 <= d < 146097
  {
    var d := DayOfEra(m);
    var last := m.century == 3 && m.cycle == 24 && m.year == 3 && m.day == 365;
    var rest := 24 * m.century + m.cycle + 365 * m.year + m.day;
    var extra := if rest >= 1460 then 1 else 0;
    DivIs(d, 1460, 25 * m.century + m.cycle + extra, rest - 1460 * extra);
    if last {
      assert d == 146096;
    } else {
      DivIs(d, 36524, m.century, 1461 * m.cycle + 365 * m.year + m.day);
      DivIs(d, 146096, 0, d);
    }
    DivIs(d - d / 1460 + d / 36524 - d / 146096, 365, YearOfEra(m), m.day - extra);
  }

  lemma StartOfYear(m: March)
    requires ValidMarch(m)
    ensures var y := YearOfEra(m); DayOfEra(m) - (365 * y + y / 4 - y / 100) == m.day && 0 <= y < 400
  {
    var y := YearOfEra(m);
    DivIs(y, 4, 25 * m.century + m.cycle, m.year);
    DivIs(y, 100, m.century, 4 * m.cycle + m.year);
  }

  lemma InEra(m: March)
    requires ValidMarch(m)
    ensures var d := DayOfEra(m);
            var y := Quotient(d - Quotient(d, 1460) + Quotient(d, 36524) - Quotient(d, 146096), 365);
            y == YearOfEra(m) && d - (365 * y + Quotient(y, 4) - Quotient(y, 100)) == m.day
  {
    hide DayOfEra, YearOfEra;
    YearIs(m);
    StartOfYear(m);
    var d := DayOfEra(m);
    DivSmall(d, 1460);
  }

  lemma DivSmall(a: int, b: int)
    requires a >= 0 && b > 0
    ensures 0 <= a / b <= a
  {
    if a / b > a {
      MulGrows(a / b, b - 1);
    }
  }

  lemma InYear(day: int)
    requires 0 <= day <= 365
    ensures var mp := Quotient(5 * day + 2, 153);
            mp == MonthPrime(day) && day - Quotient(153 * mp + 2, 5) + 1 == day - Start(mp) + 1
  {
    MonthOf(day);
    StartIs(MonthPrime(day));
  }

  lemma CivilIsFromMarch(daysSinceEpoch: int, m: March)
    requires ValidMarch(m) && daysSinceEpoch + 719468 == 146097 * m.era + DayOfEra(m)
    ensures CivilDateFromDays(daysSinceEpoch) == FromMarch(m)
  {
    hide DayOfEra, YearOfEra, Start, Quotient, MonthPrime;
    YearIs(m);
    InEra(m);
    InYear(m.day);
    EraIs(daysSinceEpoch + 719468, m.era, DayOfEra(m));
  }

  // --------------------------------------------- validity and the inverse

  lemma LeapYears(m: March)
    requires ValidMarch(m) && m.day == 365
    ensures IsLeap(YearOfEra(m) + 400 * m.era + 1)
  {
    var y := YearOfEra(m) + 400 * m.era + 1;
    DivIs(y, 4, 25 * m.century + m.cycle + 1 + 100 * m.era, 0);
    if m.cycle == 24 {
      DivIs(y, 400, m.era + 1, 0);
    } else {
      DivIs(y, 100, m.century + 4 * m.era, 4 * m.cycle + 4);
    }
  }

  lemma FromMarchValid(m: March)
    requires ValidMarch(m)
    ensures ValidDate(FromMarch(m))
  {
    hide DayOfEra, YearOfEra, MonthPrime, IsLeap;
    MonthOf(m.day);
    if m.day == 365 {
      LeapYears(m);
    }
  }

  /** Every day number becomes a date that exists. */
  lemma CivilDateValid(daysSinceEpoch: int)
    ensures ValidDate(CivilDateFromDays(daysSinceEpoch))
  {
    hide ValidDate, CivilDateFromDays, FromMarch;
    var m := ToMarch(daysSinceEpoch);
    CivilIsFromMarch(daysSinceEpoch, m);
    FromMarchValid(m);
  }

  lemma FloorStep(y: int, n: int)
    requires n > 0
    ensures y / n == (y - 1) / n + (if y % n == 0 then 1 else 0)
  {
    var q, r := (y - 1) / n, (y - 1) % n;
    if r == n - 1 {
      DivIs(y, n, q + 1, 0);
      assert y == n * (q + 1);
    } else {
      DivIs(y, n, q, r + 1);
      assert y == n * q + (r + 1);
      assert y % n == r + 1;
    }
  }

  lemma MonthStarts(year: int)
    ensures DaysBeforeMonth(year, 1) == 0 && DaysBeforeMonth(year, 2) == 31
    ensures var leap := if IsLeap(year) then 1 else 0;
            && DaysBeforeMonth(year, 3) == 59 + leap && DaysBeforeMonth(year, 4) == 90 + leap
            && DaysBeforeMonth(year, 5) == 120 + leap && DaysBeforeMonth(year, 6) == 151 + leap
            && DaysBeforeMonth(year, 7) == 181 + leap && DaysBeforeMonth(year, 8) == 212 + leap
            && DaysBeforeMonth(year, 9) == 243 + leap && DaysBeforeMonth(year, 10) == 273 + leap
            && DaysBeforeMonth(year, 11) == 304 + leap && DaysBeforeMonth(year, 12) == 334 + leap
  {
    assert DaysBeforeMonth(year, 2) == 31;
    assert DaysBeforeMonth(year, 4) == DaysBeforeMonth(year, 3) + 31;
    assert DaysBeforeMonth(year, 6) == DaysBeforeMonth(year, 5) + 31;
    assert DaysBeforeMonth(year, 8) == DaysBeforeMonth(year, 7) + 31;
    assert DaysBeforeMonth(year, 10) == DaysBeforeMonth(year, 9) + 30;
  }

  lemma YearStep(year: int)
    ensures DaysBeforeYear(year + 1) == DaysBeforeYear(year) + 365 + (if IsLeap(year) then 1 else 0)
  {
    FloorStep(year, 4);
    FloorStep(year, 100);
    FloorStep(year, 400);
    LeapDivisors(year);
  }

  lemma LeapDivisors(year: int)
    ensures year % 400 == 0 ==> year % 100 == 0
    ensures year % 100 == 0 ==> year % 4 == 0
  {
  }

  /** The day number of March 1 by the closed formula. */
  lemma MarchFirst(year: int)
    ensures DayNumber(Date(year, 3, 1)) + 719468 == 365 * year + year / 4 - year / 100 + year / 400
  {
    hide DaysBeforeMonth;
    FloorStep(year, 4);
    FloorStep(year, 100);
    FloorStep(year, 400);
    LeapDivisors(year);
    MonthStarts(year);
  }

  /** Within a March year, days count on from March 1. */
  lemma CountsFromMarch(m: March)
    requires ValidMarch(m)
    ensures DayNumber(FromMarch(m)) == DayNumber(Date(YearOfEra(m) + 400 * m.era, 3, 1)) + m.day
  {
    hide DayOfEra, YearOfEra, MonthPrime, IsLeap, DaysBeforeYear, DaysBeforeMonth;
    var y := YearOfEra(m) + 400 * m.era;
    MonthOf(m.day);
    MonthStarts(y);
    MonthStarts(y + 1);
    YearStep(y);
  }

  lemma ClosedForm(m: March)
    requires ValidMarch(m)
    ensures var y := YearOfEra(m) + 400 * m.era;
            365 * y + y / 4 - y / 100 + y / 400 + m.day == 146097 * m.era + DayOfEra(m)
  {
    var y := YearOfEra(m) + 400 * m.era;
    DivIs(y, 4, 25 * m.century + m.cycle + 100 * m.era, m.year);
    DivIs(y, 100, m.century + 4 * m.era, 4 * m.cycle + m.year);
    DivIs(y, 400, m.era, YearOfEra(m));
  }

  /** Counting the days of the resulting date gives the day number back. */
  lemma CivilDateInverts(daysSinceEpoch: int)
    ensures DayNumber(CivilDateFromDays(daysSinceEpoch)) == daysSinceEpoch
  {
    hide FromMarch, CivilDateFromDays, DayNumber, YearOfEra, DayOfEra, ValidMarch;
    var m := ToMarch(daysSinceEpoch);
    CivilIsFromMarch(daysSinceEpoch, m);
    CountsFromMarch(m);
    MarchFirst(YearOfEra(m) + 400 * m.era);
    ClosedForm(m);
  }

  // ---------------------------------------------------- day after day

  predicate Earlier(a: Date, b: Date) {
    || a.year < b.year
    || (a.year == b.year && a.month < b.month)
    || (a.year == b.year && a.month == b.month && a.day < b.day)
  }

  lemma {:induction false} MonthsGrow(year: int, a: int, b: int)
    requires 1 <= a < b <= 12
    ensures DaysBeforeMonth(year, a) + DaysInMonth(year, a) <= DaysBeforeMonth(year, b)
    decreases b
  {
    if a < b - 1 {
      MonthsGrow(year, a, b - 1);
    }
  }

  lemma {:induction false} YearsGrow(a: int, b: int)
    requires a < b
    ensures DaysBeforeYear(a) + 365 + (if IsLeap(a) then 1 else 0) <= DaysBeforeYear(b)
    decreases b - a
  {
    hide DaysBeforeYear, IsLeap;
    YearStep(b - 1);
    if a < b - 1 {
      YearsGrow(a, b - 1);
    }
  }

  lemma DayNumberOrders(a: Date, b: Date)
    requires ValidDate(a) && ValidDate(b) && Earlier(a, b)
    ensures DayNumber(a) < DayNumber(b)
  {
    hide DaysBeforeYear, DaysBeforeMonth, IsLeap;
    if a.year < b.year {
      YearsGrow(a.year, b.year);
      MonthStarts(a.year);
      MonthStarts(b.year);
    } else if a.month < b.month {
      MonthsGrow(a.year, a.month, b.month);
    }
  }

  lemma SameDay(a: Date, b: Date)
    requires ValidDate(a) && ValidDate(b) && DayNumber(a) == DayNumber(b)
    ensures a == b
  {
    hide DayNumber, ValidDate;
    if Earlier(a, b) {
      DayNumberOrders(a, b);
    } else if Earlier(b, a) {
      DayNumberOrders(b, a);
    }
  }

  /** Converting the day count of any existing date gives the date back. */
  lemma CivilDateOfDayNumber(date: Date)
    requires ValidDate(date)
    ensures CivilDateFromDays(DayNumber(date)) == date
  {
    hide DayNumber, ValidDate, CivilDateFromDays;
    CivilDateValid(DayNumber(date));
    CivilDateInverts(DayNumber(date));
    SameDay(CivilDateFromDays(DayNumber(date)), date);
  }

  lemma NextDayCounts(date: Date)
    requires ValidDate(date)
    ensures ValidDate(NextDay(date)) && DayNumber(NextDay(date)) == DayNumber(date) + 1
  {
    hide DaysBeforeYear, IsLeap;
    if date.month == 12 {
      YearStep(date.year);
      MonthStarts(date.year);
    }
  }

  /** Consecutive day numbers are consecutive calendar days, from the epoch on and
      before it. */
  lemma CivilDateAdvances(daysSinceEpoch: int)
    ensures CivilDateFromDays(daysSinceEpoch + 1) == NextDay(CivilDateFromDays(daysSinceEpoch))
    ensures CivilDateFromDays(0) == Date(1970, 1, 1)
  {
    hide DayNumber, ValidDate, CivilDateFromDays, NextDay;
    CivilDateValid(daysSinceEpoch);
    CivilDateInverts(daysSinceEpoch);
    NextDayCounts(CivilDateFromDays(daysSinceEpoch));
    CivilDateOfDayNumber(NextDay(CivilDateFromDays(daysSinceEpoch)));
    EpochDay();
    CivilDateOfDayNumber(Date(1970, 1, 1));
  }

  lemma EpochDay()
    ensures DayNumber(Date(1970, 1, 1)) == 0 && ValidDate(Date(1970, 1, 1))
    ensures DayNumber(Date(10000, 1, 1)) == 2932897 && ValidDate(Date(10000, 1, 1))
  {
  }
}
