// The civil calendar behind the HTTP date: an era and day-of-era computation, proved to be the calendar.
module CivilDate {

  datatype Date = Date(year: int, month: int, day: int)

  // ---- the calendar, one day at a time ----

  predicate IsLeap(year: int) {
    year % 4 == 0 && (year % 100 != 0 || year % 400 == 0)
  }

  function DaysInMonth(year: int, month: int): int {
    if month == 2 then (if IsLeap(year) then 29 else 28)
    else if month == 4 || month == 6 || month == 9 || month == 11 then 30
    else 31
  }

  predicate ValidDate(d: Date) {
    1 <= d.month <= 12 && 1 <= d.day <= DaysInMonth(d.year, d.month)
  }

  function NextDay(d: Date): Date {
    if d.day < DaysInMonth(d.year, d.month) then Date(d.year, d.month, d.day + 1)
    else if d.month < 12 then Date(d.year, d.month + 1, 1)
    else Date(d.year + 1, 1, 1)
  }

  // The date that many days after 1 January 1970.
  function DateAfter(days: nat): Date {
    if days == 0 then Date(1970, 1, 1) else NextDay(DateAfter(days - 1))
  }

  // ---- the computation ----

  function YearOfEra(doe: int): int {
    (doe - doe / 1460 + doe / 36524 - doe / 146096) / 365
  }

  function YearStart(yoe: int): int { 365 * yoe + yoe / 4 - yoe / 100 }

  function MonthIndex(doy: int): int { (5 * doy + 2) / 153 }

  function MonthStart(mp: int): int { (153 * mp + 2) / 5 }

  function DateInYear(y0: int, doy: int): Date {
    var mp := MonthIndex(doy);
    var d := doy - MonthStart(mp) + 1;
    var m := if mp < 10 then mp + 3 else mp - 9;
    Date(if m <= 2 then y0 + 1 else y0, m, d)
  }

  function CivilFromDays(days: nat): Date {
    var z := days + 719468;
    var era := z / 146097;
    var doe := z % 146097;
    var yoe := YearOfEra(doe);
    DateInYear(yoe + era * 400, doe - YearStart(yoe))
  }

  function Weekday(days: nat): int { (days + 4) % 7 }

  // ---- years that start in March ----

  // A March-based year ends with the February of the following civil year.
  function Length(y: int): int { if IsLeap(y + 1) then 366 else 365 }

  datatype March = March(year: int, doy: int)

  predicate InYear(m: March) { 0 <= m.year && 0 <= m.doy < Length(m.year) }

  function Tomorrow(m: March): March {
    if m.doy + 1 < Length(m.year) then March(m.year, m.doy + 1) else March(m.year + 1, 0)
  }

  function MarchAfter(days: nat): March {
    if days == 0 then March(1969, 306) else Tomorrow(MarchAfter(days - 1))
  }

  // Days since 1 March of year zero.
  function DayNumber(m: March): int {
    365 * m.year + m.year / 4 - m.year / 100 + m.year / 400 + m.doy
  }

  lemma LeapStep(y: int)
    requires 0 <= y
    ensures (y + 1) / 4 == y / 4 + (if (y + 1) % 4 == 0 then 1 else 0)
    ensures (y + 1) / 100 == y / 100 + (if (y + 1) % 100 == 0 then 1 else 0)
    ensures (y + 1) / 400 == y / 400 + (if (y + 1) % 400 == 0 then 1 else 0)
    ensures (y + 1) % 100 == 0 ==> (y + 1) % 4 == 0
    ensures (y + 1) % 400 == 0 ==> (y + 1) % 100 == 0
  {}

  lemma TomorrowCounts(m: March)
    requires InYear(m)
    ensures InYear(Tomorrow(m)) && DayNumber(Tomorrow(m)) == DayNumber(m) + 1
  {
    LeapStep(m.year);
  }

  lemma {:induction false} MarchCounts(days: nat)
    ensures InYear(MarchAfter(days)) && DayNumber(MarchAfter(days)) == days + 719468
  {
    if days > 0 {
      hide Length, DayNumber, Tomorrow;
      MarchCounts(days - 1);
      TomorrowCounts(MarchAfter(days - 1));
    }
  }

  // ---- the day of the era gives back the year ----

  // A year of the era as century, four-year group and year of the group.
  lemma EraYear(yoe: int, doy: int)
    requires 0 <= yoe < 400 && 0 <= doy < Length(yoe)
    ensures YearOfEra(YearStart(yoe) + doy) == yoe
    ensures 0 <= YearStart(yoe) + doy < 146097
  {
    var c, q, a := yoe / 100, yoe % 100 / 4, yoe % 4;
    assert yoe == 100 * c + 4 * q + a;
    assert yoe / 4 == 25 * c + q;
    assert doy == 365 ==> a == 3 && (q < 24 || c == 3);
    var doe := 36524 * c + 1461 * q + 365 * a + doy;
    assert doe == YearStart(yoe) + doy;
    EraQuotients(c, q, a, doy);
  }

  lemma EraQuotients(c: int, q: int, a: int, doy: int)
    requires 0 <= c < 4 && 0 <= q < 25 && 0 <= a < 4 && 0 <= doy <= 365
    requires doy == 365 ==> a == 3 && (q < 24 || c == 3)
    ensures var doe := 36524 * c + 1461 * q + 365 * a + doy;
            0 <= doe < 146097 && YearOfEra(doe) == 100 * c + 4 * q + a
  {
    var doe := 36524 * c + 1461 * q + 365 * a + doy;
    var low := 24 * c + q + 365 * a + doy;
    assert doe == 1460 * (25 * c + q) + low;
    assert doe / 1460 == 25 * c + q + low / 1460;
    assert 0 <= low <= 1556;
    assert doe / 146096 == if doe == 146096 then 1 else 0;
    assert doe / 36524 == if doe == 146096 then 4 else c;
  }

  lemma EraSplits(m: March)
    requires InYear(m)
    ensures var z := DayNumber(m);
            z / 146097 == m.year / 400 && z % 146097 == YearStart(m.year % 400) + m.doy
    ensures YearOfEra(YearStart(m.year % 400) + m.doy) == m.year % 400
  {
    hide YearOfEra, IsLeap;
    var era, yoe := m.year / 400, m.year % 400;
    EraRemainder(era, yoe);
    EraYear(yoe, m.doy);
    assert DayNumber(m) == 146097 * era + (YearStart(yoe) + m.doy);
    Quotient(era, YearStart(yoe) + m.doy);
  }

  lemma EraRemainder(era: int, yoe: int)
    requires 0 <= yoe < 400
    ensures var y := 400 * era + yoe;
            y / 4 == 100 * era + yoe / 4 && y / 100 == 4 * era + yoe / 100 && IsLeap(y + 1) == IsLeap(yoe + 1)
  {}

  lemma Quotient(q: int, r: int)
    requires 0 <= r < 146097
    ensures (146097 * q + r) / 146097 == q && (146097 * q + r) % 146097 == r
  {}

  // ---- the day of the year gives back the month ----

  lemma MonthSplits(doy: int)
    requires 0 <= doy < 366
    ensures var mp := MonthIndex(doy);
            0 <= mp < 12 && MonthStart(mp) <= doy && (mp < 11 ==> doy < MonthStart(mp + 1))
  {}

  lemma MonthLengths(y0: int, mp: int)
    requires 0 <= mp < 12
    ensures var m := if mp < 10 then mp + 3 else mp - 9;
            var y := if m <= 2 then y0 + 1 else y0;
            (mp < 11 ==> DaysInMonth(y, m) == MonthStart(mp + 1) - MonthStart(mp))
            && (mp == 11 ==> DaysInMonth(y, m) == Length(y0) - MonthStart(11))
  {}

  // The day of the year that starts a month starts that month.
  lemma MonthStartsMonth(mp: int)
    requires 0 <= mp < 12
    ensures MonthIndex(MonthStart(mp)) == mp
  {}

  lemma SameMonth(doy: int)
    requires 0 <= doy < 365
    ensures MonthIndex(doy + 1) == MonthIndex(doy) || doy + 1 == MonthStart(MonthIndex(doy) + 1)
  {}

  // In March-based years the next day is the next day of the calendar.
  lemma TomorrowIsNextDay(m: March)
    requires InYear(m)
    ensures var d := DateInYear(m.year, m.doy); var t := Tomorrow(m);
            ValidDate(d) && NextDay(d) == DateInYear(t.year, t.doy)
  {
    var mp := MonthIndex(m.doy);
    MonthSplits(m.doy);
    MonthLengths(m.year, mp);
    if m.doy + 1 < Length(m.year) {
      SameMonth(m.doy);
      if MonthIndex(m.doy + 1) == mp {
        MonthSplits(m.doy + 1);
      } else {
        MonthStartsMonth(mp + 1);
      }
    }
  }

  lemma {:induction false} MarchIsCalendar(days: nat)
    ensures var m := MarchAfter(days); InYear(m) && DateInYear(m.year, m.doy) == DateAfter(days)
  {
    MarchCounts(days);
    if days > 0 {
      MarchIsCalendar(days - 1);
      TomorrowIsNextDay(MarchAfter(days - 1));
    }
  }

  // ---- the result ----

  // For every day count the computation gives the calendar date, which is a valid one.
  lemma CivilIsCalendar(days: nat)
    ensures CivilFromDays(days) == DateAfter(days)
    ensures ValidDate(CivilFromDays(days))
  {
    hide YearOfEra, YearStart, DateInYear, DayNumber, Tomorrow, Length, ValidDate, NextDay, DaysInMonth;
    MarchCounts(days);
    MarchIsCalendar(days);
    EraSplits(MarchAfter(days));
    TomorrowIsNextDay(MarchAfter(days));
  }

  // The first day is a Thursday and each day moves the weekday by one, Saturday to Sunday.
  lemma WeekdayAdvances(days: nat)
    ensures Weekday(0) == 4
    ensures Weekday(days + 1) == if Weekday(days) == 6 then 0 else Weekday(days) + 1
  {}

  lemma DateInYearIsInjective(m: March, n: March)
    requires InYear(m) && InYear(n) && DateInYear(m.year, m.doy) == DateInYear(n.year, n.doy)
    ensures m == n
  {
    MonthSplits(m.doy);
    MonthSplits(n.doy);
    hide MonthIndex, MonthStart, Length;
    assert MonthIndex(m.doy) == MonthIndex(n.doy);
  }

  // The date determines the day.
  lemma CivilIsInjective(a: nat, b: nat)
    requires CivilFromDays(a) == CivilFromDays(b)
    ensures a == b
  {
    hide CivilFromDays, DateInYear, DayNumber, Length, DateAfter, MarchAfter;
    CivilIsCalendar(a);
    CivilIsCalendar(b);
    MarchIsCalendar(a);
    MarchIsCalendar(b);
    MarchCounts(a);
    MarchCounts(b);
    DateInYearIsInjective(MarchAfter(a), MarchAfter(b));
  }
}
