// The HTTP date line of a second, as section 7.1.1.1 of RFC 7231 writes it.
module HttpDates {
  import opened Net
  import opened Text
  import opened CivilDate

  const WEEKDAYS: seq<string> := ["Sun", "Mon", "Tue", "Wed", "Thu", "Fri", "Sat"]
  const MONTHS: seq<string> :=
    ["Jan", "Feb", "Mar", "Apr", "May", "Jun", "Jul", "Aug", "Sep", "Oct", "Nov", "Dec"]

  // At least two digits.
  function Pad2(n: nat): string { if n < 10 then "0" + Dec(n) else Dec(n) }

  function Clock(secs: nat): string {
    Pad2(secs / 3600) + ":" + Pad2(secs % 3600 / 60) + ":" + Pad2(secs % 60)
  }

  function DatePart(days: nat): seq<string> {
    var d := CivilFromDays(days);
    CivilIsCalendar(days);
    DaysFit(days);
    [WEEKDAYS[Weekday(days)] + ",", Pad2(d.day), MONTHS[d.month - 1], Dec(d.year)]
  }

  function HttpDate(unix: u64): string {
    Join(DatePart(unix / 86400) + [Clock(unix % 86400), "GMT"], ' ')
  }

  lemma {:induction false} DateIsPositive(days: nat)
    ensures DateAfter(days).year >= 1970
  {
    if days > 0 {
      DateIsPositive(days - 1);
    }
  }

  lemma DaysFit(days: nat)
    ensures var d := CivilFromDays(days); d.year >= 1970 && 1 <= d.month <= 12 && 1 <= d.day <= 31
  {
    CivilIsCalendar(days);
    DateIsPositive(days);
  }

  lemma Pad2Plain(n: nat, c: char)
    requires !IsDigit(c)
    ensures c !in Pad2(n) && (n < 100 ==> |Pad2(n)| == 2)
  {
    DecLength(n);
  }

  lemma Pad2Tells(m: nat, n: nat)
    requires m < 100 && n < 100 && Pad2(m) == Pad2(n)
    ensures m == n
  {
    DigitsOfDec(m);
    DigitsOfDec(n);
    DecLength(m);
    DecLength(n);
    if m < 10 && n < 10 {
      assert Pad2(m)[1..] == Dec(m) && Pad2(n)[1..] == Dec(n);
    }
  }

  lemma ClockShape(s: nat)
    requires s < 86400
    ensures |Clock(s)| == 8
    ensures Clock(s)[..2] == Pad2(s / 3600) && Clock(s)[3..5] == Pad2(s % 3600 / 60) && Clock(s)[6..] == Pad2(s % 60)
  {
    hide Pad2;
    Pad2Plain(s / 3600, ' ');
    Pad2Plain(s % 3600 / 60, ' ');
    Pad2Plain(s % 60, ' ');
  }

  lemma ClockTells(a: nat, b: nat)
    requires a < 86400 && b < 86400 && Clock(a) == Clock(b)
    ensures a == b
  {
    hide Pad2, Clock;
    ClockShape(a);
    ClockShape(b);
    Pad2Tells(a / 3600, b / 3600);
    Pad2Tells(a % 3600 / 60, b % 3600 / 60);
    Pad2Tells(a % 60, b % 60);
  }

  lemma PartsAreSpaceless(days: nat, secs: nat)
    requires secs < 86400
    ensures var parts := DatePart(days) + [Clock(secs), "GMT"]; |parts| == 6 && forall p :: p in parts ==> ' ' !in p
  {
    hide CivilFromDays, Weekday, Pad2;
    DaysFit(days);
    var d := CivilFromDays(days);
    WeekdaysFit(days);
    NamesAreSpaceless(Weekday(days), d.month - 1);
    Pad2Plain(d.day, ' ');
    Pad2Plain(secs / 3600, ' ');
    Pad2Plain(secs % 3600 / 60, ' ');
    Pad2Plain(secs % 60, ' ');
    ClockIsSpaceless(secs);
    assert ' ' !in Dec(d.year);
  }

  lemma WeekdaysFit(days: nat)
    ensures 0 <= Weekday(days) < 7
  {}

  lemma ClockIsSpaceless(secs: nat)
    ensures ' ' !in Clock(secs)
  {
    hide Pad2;
    Pad2Plain(secs / 3600, ' ');
    Pad2Plain(secs % 3600 / 60, ' ');
    Pad2Plain(secs % 60, ' ');
  }

  lemma NamesAreSpaceless(w: nat, m: nat)
    requires w < 7 && m < 12
    ensures |WEEKDAYS[w]| == |MONTHS[m]| == 3
    ensures ' ' !in WEEKDAYS[w] + "," && ' ' !in MONTHS[m]
  {}

  lemma MonthsTell(a: nat, b: nat)
    requires a < 12 && b < 12 && MONTHS[a] == MONTHS[b]
    ensures a == b
  {
    assert MONTHS[a][0] == MONTHS[b][0] && MONTHS[a][1] == MONTHS[b][1] && MONTHS[a][2] == MONTHS[b][2];
  }

  lemma DecTells(m: nat, n: nat)
    requires Dec(m) == Dec(n)
    ensures m == n
  {
    DigitsOfDec(m);
    DigitsOfDec(n);
  }

  // Two seconds never share a date line.
  lemma DateLineTellsSeconds(a: u64, b: u64)
    requires HttpDate(a) == HttpDate(b)
    ensures a == b
  {
    hide Clock, CivilFromDays, Weekday, Pad2, Join, Split;
    var x, y := DatePart(a / 86400) + [Clock(a % 86400), "GMT"], DatePart(b / 86400) + [Clock(b % 86400), "GMT"];
    PartsAreSpaceless(a / 86400, a % 86400);
    PartsAreSpaceless(b / 86400, b % 86400);
    SplitJoin(x, ' ');
    SplitJoin(y, ' ');
    assert x == y;
    assert x[1] == y[1] && x[2] == y[2] && x[3] == y[3] && x[4] == y[4];
    ClockTells(a % 86400, b % 86400);
    DaysFit(a / 86400);
    DaysFit(b / 86400);
    var d, e := CivilFromDays(a / 86400), CivilFromDays(b / 86400);
    Pad2Tells(d.day, e.day);
    MonthsTell(d.month - 1, e.month - 1);
    DecTells(d.year, e.year);
    CivilIsInjective(a / 86400, b / 86400);
  }

  // ---- reading the line back ----

  // The fixed form of the section, read by its own tables: weekday from Sunday as zero, date, and time of day.
  datatype Reading = Reading(weekday: int, date: Date, hour: int, minute: int, second: int)

  function WeekdayNumber(s: string): Option<int> {
    if s == "Sun," then Some(0) else if s == "Mon," then Some(1) else if s == "Tue," then Some(2)
    else if s == "Wed," then Some(3) else if s == "Thu," then Some(4) else if s == "Fri," then Some(5)
    else if s == "Sat," then Some(6) else None
  }

  function MonthNumber(s: string): Option<int> {
    if s == "Jan" then Some(1) else if s == "Feb" then Some(2) else if s == "Mar" then Some(3)
    else if s == "Apr" then Some(4) else if s == "May" then Some(5) else if s == "Jun" then Some(6)
    else if s == "Jul" then Some(7) else if s == "Aug" then Some(8) else if s == "Sep" then Some(9)
    else if s == "Oct" then Some(10) else if s == "Nov" then Some(11) else if s == "Dec" then Some(12) else None
  }

  function ReadClock(s: string): Option<(int, int, int)> {
    if |s| != 8 || s[2] != ':' || s[5] != ':' then None
    else
      var h, m, sec := DigitsValue(s[..2]), DigitsValue(s[3..5]), DigitsValue(s[6..]);
      if h.None? || m.None? || sec.None? then None else Some((h.value, m.value, sec.value))
  }

  function ReadHttpDate(line: string): Option<Reading> {
    var parts := Split(line, ' ');
    if |parts| != 6 || parts[5] != "GMT" then None
    else
      var weekday, month := WeekdayNumber(parts[0]), MonthNumber(parts[2]);
      var day, year, clock := DigitsValue(parts[1]), DigitsValue(parts[3]), ReadClock(parts[4]);
      if weekday.None? || month.None? || day.None? || year.None? || clock.None? then None
      else Some(Reading(weekday.value, Date(year.value, month.value, day.value),
                        clock.value.0, clock.value.1, clock.value.2))
  }

  lemma WeekdayReads(w: nat)
    requires w < 7
    ensures WeekdayNumber(WEEKDAYS[w] + ",") == Some(w)
  {
    var s := WEEKDAYS[w] + ",";
    assert |s| == 4 && s[0] == WEEKDAYS[w][0] && s[1] == WEEKDAYS[w][1] && s[2] == WEEKDAYS[w][2] && s[3] == ',';
    if w == 0 {
      assert s == "Sun,";
    } else if w == 1 {
      assert s == "Mon,";
    } else if w == 2 {
      assert s == "Tue,";
    } else if w == 3 {
      assert s == "Wed,";
    } else if w == 4 {
      assert s == "Thu,";
    } else if w == 5 {
      assert s == "Fri,";
    } else {
      assert s == "Sat,";
    }
  }

  lemma MonthReads(m: nat)
    requires m < 12
    ensures MonthNumber(MONTHS[m]) == Some(m + 1)
  {}

  lemma Pad2Reads(n: nat)
    ensures DigitsValue(Pad2(n)) == Some(n)
  {
    DigitsOfDec(n);
    if n < 10 {
      assert Pad2(n)[..1] == "0" && DigitsValue("0") == Some(0);
    }
  }

  lemma ClockReads(secs: nat)
    requires secs < 86400
    ensures ReadClock(Clock(secs)) == Some((secs / 3600, secs % 3600 / 60, secs % 60))
  {
    ClockShape(secs);
    Pad2Reads(secs / 3600);
    Pad2Reads(secs % 3600 / 60);
    Pad2Reads(secs % 60);
    Pad2Plain(secs / 3600, ':');
    Pad2Plain(secs % 3600 / 60, ':');
    hide Pad2, DigitsValue;
    var c := Clock(secs);
    assert c[2] == ':' && c[5] == ':';
  }

  lemma PartsReadBack(days: nat, secs: nat)
    requires secs < 86400
    ensures var p := DatePart(days);
            |p| == 4 && WeekdayNumber(p[0]) == Some((days + 4) % 7) && DigitsValue(p[1]) == Some(DateAfter(days).day) &&
            MonthNumber(p[2]) == Some(DateAfter(days).month) && DigitsValue(p[3]) == Some(DateAfter(days).year)
  {
    hide CivilFromDays, Pad2, Dec, DigitsValue, WeekdayNumber, MonthNumber, DateAfter;
    DaysFit(days);
    CivilIsCalendar(days);
    WeekdaysFit(days);
    var d := CivilFromDays(days);
    WeekdayReads(Weekday(days));
    MonthReads(d.month - 1);
    Pad2Reads(d.day);
    DigitsOfDec(d.year);
  }

  // The line of a second reads back as the weekday, the civil date and the time of day of that second.
  lemma DateLineReadsBack(unix: u64)
    ensures var days, secs := unix / 86400, unix % 86400;
            ReadHttpDate(HttpDate(unix)) ==
            Some(Reading((days + 4) % 7, DateAfter(days), secs / 3600, secs % 3600 / 60, secs % 60))
  {
    hide DatePart, Clock, CivilFromDays, Weekday, Pad2, Dec, DigitsValue, ReadClock, WeekdayNumber, MonthNumber;
    hide DateAfter, Join, Split;
    var days, secs := unix / 86400, unix % 86400;
    PartsReadBack(days, secs);
    ClockReads(secs);
    PartsAreSpaceless(days, secs);
    SplitJoin(DatePart(days) + [Clock(secs), "GMT"], ' ');
  }
}
