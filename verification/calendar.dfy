/** Access-log timestamps of deploy/agents/site-privacy.js (`occurred`).

    The date arithmetic of the script's engine is written out after section 15.9.1 of ECMA-262, edition
    5.1.  The reference is a calendar that counts days year by year and month by month. */
module Calendar {
  import opened Wrappers

  const MS_PER_DAY := 86400000
  const MS_PER_MINUTE := 60000

  // ----- The Gregorian calendar, by counting -----

  predicate Leap(y: int) {
    y % 4 == 0 && (y % 100 != 0 || y % 400 == 0)
  }

  function DaysInYear(y: int): int {
    if Leap(y) then 366 else 365
  }

  function DaysInMonth(y: int, m: int): int {
    if m == 1 then if Leap(y) then 29 else 28
    else if m == 3 || m == 5 || m == 8 || m == 10 then 30
    else 31
  }

  /** Days from the first of January to the first of month m (January is 0). */
  function MonthStart(y: int, m: nat): int {
    if m == 0 then 0 else MonthStart(y, m - 1) + DaysInMonth(y, m - 1)
  }

  /** Days from the first of January 1970 to the first of January of year y, one year at a time. */
  function YearStart(y: int): int
    decreases if y >= 1970 then y - 1970 else 1970 - y
  {
    if y == 1970 then 0
    else if y > 1970 then YearStart(y - 1) + DaysInYear(y - 1)
    else YearStart(y + 1) - DaysInYear(y)
  }

  // ----- Section 15.9.1 -----

  /** 15.9.1.3: DayFromYear. */
  function DayFromYear(y: int): int {
    365 * (y - 1970) + (y - 1969) / 4 - (y - 1901) / 100 + (y - 1601) / 400
  }

  lemma DayFromYearStep(y: int)
    ensures DayFromYear(y + 1) == DayFromYear(y) + DaysInYear(y)
  {
    FourthYear(y);
    Century(y);
    FourthCentury(y);
    LeapCount(y);
  }

  lemma LeapCount(y: int)
    ensures (if y % 4 == 0 then 1 else 0) - (if y % 100 == 0 then 1 else 0) + (if y % 400 == 0 then 1 else 0) == if Leap(y) then 1 else 0
  {
    if y % 400 == 0 { assert y == 400 * (y / 400) == 100 * (4 * (y / 400)); }
    if y % 100 == 0 { assert y == 100 * (y / 100) == 4 * (25 * (y / 100)); }
  }

  lemma FourthYear(y: int)
    ensures (y - 1968) / 4 - (y - 1969) / 4 == if y % 4 == 0 then 1 else 0
  {
  }

  lemma Century(y: int)
    ensures (y - 1900) / 100 - (y - 1901) / 100 == if y % 100 == 0 then 1 else 0
  {
  }

  lemma FourthCentury(y: int)
    ensures (y - 1600) / 400 - (y - 1601) / 400 == if y % 400 == 0 then 1 else 0
  {
  }

  /** The closed formula counts the years; from here on the counted form stands for it. */
  lemma {:induction false} FormulaCountsYears(y: int)
    ensures DayFromYear(y) == YearStart(y)
    decreases if y >= 1970 then y - 1970 else 1970 - y
  {
    if y > 1970 {
      FormulaCountsYears(y - 1);
      DayFromYearStep(y - 1);
    } else if y < 1970 {
      FormulaCountsYears(y + 1);
      DayFromYearStep(y);
    }
  }

  lemma YearStartStep(y: int)
    ensures YearStart(y + 1) == YearStart(y) + DaysInYear(y)
  {
  }

  lemma {:induction false} YearsApart(y: int, z: int)
    requires y < z
    ensures YearStart(y) + DaysInYear(y) <= YearStart(z)
    decreases z - y
  {
    YearStartStep(y);
    if y + 1 < z { YearsApart(y + 1, z); }
  }

  /** 15.9.1.3: YearFromTime, as the year whose first day is the last one not after the given day. */
  function YearFromDay(day: int): (y: int)
    ensures YearStart(y) <= day < YearStart(y) + DaysInYear(y)
  {
    SearchYear(day, 1970 + day / 366)
  }

  function SearchYear(day: int, y: int): (r: int)
    ensures YearStart(r) <= day < YearStart(r) + DaysInYear(r)
    decreases if YearStart(y) > day then YearStart(y) - day else if day >= YearStart(y + 1) then day - YearStart(y) else 0
  {
    YearStartStep(y);
    YearStartStep(y - 1);
    YearStartStep(y + 1);
    if YearStart(y) > day then SearchYear(day, y - 1)
    else if day >= YearStart(y + 1) then SearchYear(day, y + 1)
    else y
  }

  lemma YearUnique(day: int, y: int)
    requires YearStart(y) <= day < YearStart(y) + DaysInYear(y)
    ensures YearFromDay(day) == y
  {
    var r := YearFromDay(day);
    if r < y { YearsApart(r, y); }
    if y < r { YearsApart(y, r); }
  }

  /** 15.9.1.4: MonthFromTime, from the day within the year. */
  function MonthFrom(y: int, k: int, m: nat): (r: nat)
    requires m <= 11 && MonthStart(y, m) <= k < DaysInYear(y)
    ensures m <= r <= 11 && MonthStart(y, r) <= k < MonthStart(y, r) + DaysInMonth(y, r)
    decreases 11 - m
  {
    YearLength(y);
    if m == 11 || k < MonthStart(y, m + 1) then m else MonthFrom(y, k, m + 1)
  }

  lemma YearLength(y: int)
    ensures MonthStart(y, 11) + 31 == DaysInYear(y) == MonthStart(y, 12)
  {
    assert MonthStart(y, 1) == 31;
    assert MonthStart(y, 2) == 31 + DaysInMonth(y, 1);
    assert MonthStart(y, 4) == MonthStart(y, 2) + 31 + 30;
    assert MonthStart(y, 6) == MonthStart(y, 4) + 31 + 30;
    assert MonthStart(y, 8) == MonthStart(y, 6) + 31 + 31;
    assert MonthStart(y, 10) == MonthStart(y, 8) + 30 + 31;
    assert MonthStart(y, 12) == MonthStart(y, 10) + 30 + 31;
  }

  lemma {:induction false} MonthsApart(y: int, m: nat, n: nat)
    requires m < n
    ensures MonthStart(y, m) + DaysInMonth(y, m) <= MonthStart(y, n)
    decreases n - m
  {
    if m + 1 < n { MonthsApart(y, m + 1, n); }
  }

  lemma MonthUnique(y: int, k: int, m: nat)
    requires m <= 11 && MonthStart(y, m) <= k < MonthStart(y, m) + DaysInMonth(y, m) && 0 <= k < DaysInYear(y)
    ensures MonthFrom(y, k, 0) == m
  {
    var r := MonthFrom(y, k, 0);
    if r < m { MonthsApart(y, r, m); }
    if m < r { MonthsApart(y, m, r); }
  }

  /** A civil date and time, to the millisecond. */
  datatype Civil = Civil(year: int, month: int, day: int, hour: int, minute: int, second: int, ms: int)

  predicate RealDate(c: Civil) {
    && 0 <= c.month <= 11 && 1 <= c.day <= DaysInMonth(c.year, c.month)
    && 0 <= c.hour <= 23 && 0 <= c.minute <= 59 && 0 <= c.second <= 59 && 0 <= c.ms <= 999
  }

  datatype Date = Date(year: int, month: int, day: int)

  /** 15.9.1.5: DateFromTime, with its year and month. */
  function DateOf(day: int): (d: Date)
    ensures 0 <= d.month <= 11 && 1 <= d.day <= DaysInMonth(d.year, d.month)
  {
    DateIn(YearFromDay(day), DayWithinYear(day))
  }

  /** 15.9.1.4: DayWithinYear. */
  function DayWithinYear(day: int): (k: int)
    ensures 0 <= k < DaysInYear(YearFromDay(day))
  {
    day - YearStart(YearFromDay(day))
  }

  function DateIn(y: int, k: int): (d: Date)
    requires 0 <= k < DaysInYear(y)
    ensures 0 <= d.month <= 11 && 1 <= d.day <= DaysInMonth(d.year, d.month)
  {
    var m := MonthFrom(y, k, 0);
    Date(y, m, k - MonthStart(y, m) + 1)
  }

  /** 15.9.1.10: the fields of a time value, as the getUTC functions report them. */
  function CivilOf(t: int): Civil {
    CivilAt(DateOf(t / MS_PER_DAY), t % MS_PER_DAY)
  }

  function CivilAt(d: Date, rest: int): Civil {
    Civil(d.year, d.month, d.day,
          rest / 3600000, rest / MS_PER_MINUTE % 60, rest / 1000 % 60, rest % 1000)
  }

  /** 15.9.1.12: MakeDay; months outside the year carry over, days simply count on. */
  function MakeDay(year: int, month: int, day: int): int {
    var y, m := year + month / 12, month % 12;
    YearStart(y) + MonthStart(y, m) + day - 1
  }

  /** 15.9.1.11 and .13: MakeTime and MakeDate. */
  function MakeTime(year: int, month: int, day: int, hour: int, minute: int, second: int): int {
    MakeDay(year, month, day) * MS_PER_DAY + hour * 3600000 + minute * MS_PER_MINUTE + second * 1000
  }

  /** Date.UTC: years 0 to 99 mean 1900 to 1999. */
  function DateUtc(year: int, month: int, day: int, hour: int, minute: int, second: int): int {
    MakeTime(if 0 <= year <= 99 then 1900 + year else year, month, day, hour, minute, second)
  }

  // ----- The two directions are inverse -----

  lemma DayPart(n: int, rest: int)
    requires 0 <= rest < MS_PER_DAY
    ensures (n * MS_PER_DAY + rest) / MS_PER_DAY == n && (n * MS_PER_DAY + rest) % MS_PER_DAY == rest
  {
  }

  lemma CivilTime(n: int, rest: int)
    requires 0 <= rest < MS_PER_DAY
    ensures CivilOf(n * MS_PER_DAY + rest) == CivilAt(DateOf(n), rest)
  {
    DayPart(n, rest);
  }

  function Clock(hour: int, minute: int, second: int, ms: int): int {
    hour * 3600000 + minute * MS_PER_MINUTE + second * 1000 + ms
  }

  lemma ClockFields(d: Date, hour: int, minute: int, second: int, ms: int)
    requires 0 <= hour <= 23 && 0 <= minute <= 59 && 0 <= second <= 59 && 0 <= ms <= 999
    ensures 0 <= Clock(hour, minute, second, ms) < MS_PER_DAY
    ensures CivilAt(d, Clock(hour, minute, second, ms)) == Civil(d.year, d.month, d.day, hour, minute, second, ms)
  {
    var rest := Clock(hour, minute, second, ms);
    assert rest / MS_PER_MINUTE == hour * 60 + minute;
    assert rest / 1000 == (hour * 60 + minute) * 60 + second;
  }

  lemma ClockParts(d: Date, rest: int)
    requires 0 <= rest < MS_PER_DAY
    ensures var c := CivilAt(d, rest);
            && 0 <= c.hour <= 23 && 0 <= c.minute <= 59 && 0 <= c.second <= 59 && 0 <= c.ms <= 999
            && rest == Clock(c.hour, c.minute, c.second, c.ms)
  {
  }

  lemma DayInYear(y: int, m: nat, d: int)
    requires m <= 11 && 1 <= d <= DaysInMonth(y, m)
    ensures 0 <= MonthStart(y, m) + d - 1 < DaysInYear(y)
  {
    YearLength(y);
    if m < 11 { MonthsApart(y, m, 11); }
    if m > 0 { MonthsApart(y, 0, m); }
  }

  lemma MakeDayPlain(y: int, m: nat, d: int)
    requires m <= 11
    ensures MakeDay(y, m, d) == YearStart(y) + (MonthStart(y, m) + d - 1)
  {
  }

  lemma DateInMonth(y: int, m: nat, d: int)
    requires m <= 11 && 1 <= d <= DaysInMonth(y, m)
    ensures var k := MonthStart(y, m) + d - 1; 0 <= k < DaysInYear(y) && DateIn(y, k) == Date(y, m, d)
  {
    DayInYear(y, m, d);
    DateWithin(y, MonthStart(y, m) + d - 1, m, MonthStart(y, m));
  }

  lemma DateWithin(y: int, k: int, m: nat, start: int)
    requires m <= 11 && start == MonthStart(y, m) && start <= k < start + DaysInMonth(y, m) && 0 <= k < DaysInYear(y)
    ensures DateIn(y, k) == Date(y, m, k - start + 1)
  {
    MonthUnique(y, k, m);
  }

  lemma DayOfMake(y: int, m: nat, d: int)
    requires m <= 11 && 1 <= d <= DaysInMonth(y, m)
    ensures var n := MakeDay(y, m, d); YearFromDay(n) == y && DayWithinYear(n) == MonthStart(y, m) + d - 1
  {
    MakeDayPlain(y, m, d);
    DayInYear(y, m, d);
    YearUnique(MakeDay(y, m, d), y);
  }

  lemma DateOfMake(y: int, m: nat, d: int)
    requires m <= 11 && 1 <= d <= DaysInMonth(y, m)
    ensures DateOf(MakeDay(y, m, d)) == Date(y, m, d)
  {
    DayOfMake(y, m, d);
    DateInMonth(y, m, d);
    DateOfIs(MakeDay(y, m, d), y, MonthStart(y, m) + d - 1);
  }

  lemma DateOfIs(n: int, y: int, k: int)
    requires YearFromDay(n) == y && DayWithinYear(n) == k
    ensures 0 <= k < DaysInYear(y) && DateOf(n) == DateIn(y, k)
  {
  }

  lemma MakeOfDate(day: int)
    ensures var d := DateOf(day); MakeDay(d.year, d.month, d.day) == day
  {
  }

  lemma TimeOfClock(n: int, c: Civil)
    requires n == MakeDay(c.year, c.month, c.day)
    ensures MakeTime(c.year, c.month, c.day, c.hour, c.minute, c.second) + c.ms == n * MS_PER_DAY + Clock(c.hour, c.minute, c.second, c.ms)
  {
  }

  lemma PartsOfMake(c: Civil) returns (n: int)
    requires RealDate(c)
    ensures DateOf(n) == Date(c.year, c.month, c.day)
    ensures MakeTime(c.year, c.month, c.day, c.hour, c.minute, c.second) + c.ms == n * MS_PER_DAY + Clock(c.hour, c.minute, c.second, c.ms)
  {
    n := MakeDay(c.year, c.month, c.day);
    DateOfMake(c.year, c.month, c.day);
    TimeOfClock(n, c);
  }

  lemma CivilOfParts(n: int, c: Civil, t: int)
    requires RealDate(c) && DateOf(n) == Date(c.year, c.month, c.day)
    requires t == n * MS_PER_DAY + Clock(c.hour, c.minute, c.second, c.ms)
    ensures CivilOf(t) == c
  {
    ClockFields(DateOf(n), c.hour, c.minute, c.second, c.ms);
    CivilTime(n, Clock(c.hour, c.minute, c.second, c.ms));
  }

  /** A real date and time is read back from its time value. */
  lemma CivilOfMake(c: Civil)
    requires RealDate(c)
    ensures CivilOf(MakeTime(c.year, c.month, c.day, c.hour, c.minute, c.second) + c.ms) == c
  {
    var n := PartsOfMake(c);
    CivilOfParts(n, c, MakeTime(c.year, c.month, c.day, c.hour, c.minute, c.second) + c.ms);
  }

  /** Every time value is the one of its own fields: no two instants share them. */
  lemma MakeOfCivil(t: int)
    ensures var c := CivilOf(t);
            RealDate(c) && MakeTime(c.year, c.month, c.day, c.hour, c.minute, c.second) + c.ms == t
  {
    var n, rest := t / MS_PER_DAY, t % MS_PER_DAY;
    ClockParts(DateOf(n), rest);
    MakeOfDate(n);
    TimeOfClock(n, CivilOf(t));
  }

  // ----- occurred -----

  /** The numbers of a well-formed timestamp; month is -1 for a name that is no month. */
  datatype Stamp = Stamp(day: int, month: int, year: int, hour: int, minute: int, second: int,
                         east: bool, zoneHour: int, zoneMinute: int)

  function Zone(s: Stamp): int {
    (s.zoneHour * 60 + s.zoneMinute) * if s.east then 1 else -1
  }

  function Abs(n: int): int { if n < 0 then -n else n }

  function Instant(s: Stamp): Option<int> {
    var t := DateUtc(s.year, s.month, s.day, s.hour, s.minute, s.second);
    if s.month < 0 || s.year < 2000 || s.year > 2100 || s.hour > 23 || s.minute > 59 || s.second > 59
       || s.zoneHour > 14 || s.zoneMinute > 59 || Abs(Zone(s)) > 840
       || CivilOf(t).day != s.day || CivilOf(t).month != s.month
    then None
    else Some(t - Zone(s) * MS_PER_MINUTE)
  }

  /** What the pattern allows: two-digit fields, a four-digit year, a name of three letters. */
  predicate Shaped(s: Stamp) {
    && -1 <= s.month <= 11 && 0 <= s.day <= 99 && 0 <= s.year <= 9999 && 0 <= s.hour <= 99 && 0 <= s.minute <= 99
    && 0 <= s.second <= 99 && 0 <= s.zoneHour <= 99 && 0 <= s.zoneMinute <= 99
  }

  function LocalTime(s: Stamp): Civil {
    Civil(s.year, s.month, s.day, s.hour, s.minute, s.second, 0)
  }

  /** A real Gregorian date of the years 2000 to 2100, a legal time, and an offset of at most 14:00. */
  predicate Legal(s: Stamp) {
    RealDate(LocalTime(s)) && 2000 <= s.year <= 2100 && s.zoneMinute <= 59 && s.zoneHour * 60 + s.zoneMinute <= 840
  }

  lemma DateDetermines(y: int, z: int, m: nat, day: int)
    requires m <= 11 && YearStart(y) + MonthStart(y, m) == YearStart(z) + MonthStart(z, m)
    ensures y == z
  {
    DayInYear(y, m, 1);
    DayInYear(z, m, 1);
    if y < z { YearsApart(y, z); }
    if z < y { YearsApart(z, y); }
  }

  /** The read-back test on day and month accepts exactly the days the month has. */
  lemma DateReadBack(y: int, m: nat, day: int)
    requires m <= 11
    ensures var d := DateOf(MakeDay(y, m, day)); (d.day == day && d.month == m) <==> 1 <= day <= DaysInMonth(y, m)
  {
    var n := MakeDay(y, m, day);
    var d := DateOf(n);
    MakeOfDate(n);
    if d.day == day && d.month == m { DateDetermines(y, d.year, m, day); }
    if 1 <= day <= DaysInMonth(y, m) { DateOfMake(y, m, day); }
  }

  lemma ReadBackTest(s: Stamp)
    requires Shaped(s) && 0 <= s.month && 2000 <= s.year && s.hour <= 23 && s.minute <= 59 && s.second <= 59
    ensures var c := CivilOf(DateUtc(s.year, s.month, s.day, s.hour, s.minute, s.second));
            (c.day == s.day && c.month == s.month) <==> 1 <= s.day <= DaysInMonth(s.year, s.month)
  {
    var n := MakeDay(s.year, s.month, s.day);
    assert DateUtc(s.year, s.month, s.day, s.hour, s.minute, s.second)
        == n * MS_PER_DAY + (s.hour * 3600000 + s.minute * MS_PER_MINUTE + s.second * 1000);
    DayOfTime(n, s.hour, s.minute, s.second);
    DateReadBack(s.year, s.month, s.day);
  }

  lemma DayOfTime(n: int, hour: int, minute: int, second: int)
    requires 0 <= hour <= 23 && 0 <= minute <= 59 && 0 <= second <= 59
    ensures var c := CivilOf(n * MS_PER_DAY + (hour * 3600000 + minute * MS_PER_MINUTE + second * 1000));
            c.day == DateOf(n).day && c.month == DateOf(n).month
  {
    ClockFields(DateOf(n), hour, minute, second, 0);
    CivilTime(n, Clock(hour, minute, second, 0));
  }

  /** The local time, at the stamp's offset, of an instant. */
  function LocalOf(s: Stamp, instant: int): Civil {
    CivilOf(instant + Zone(s) * MS_PER_MINUTE)
  }

  /** A well-formed timestamp is accepted exactly when it is legal. */
  lemma AcceptedIffLegal(s: Stamp)
    requires Shaped(s)
    ensures Instant(s).Some? <==> Legal(s)
  {
    if 0 <= s.month && 2000 <= s.year <= 2100 && s.hour <= 23 && s.minute <= 59 && s.second <= 59 {
      ReadBackTest(s);
    }
  }

  lemma LegalInstant(s: Stamp)
    requires Shaped(s) && Legal(s)
    ensures Instant(s) == Some(MakeTime(s.year, s.month, s.day, s.hour, s.minute, s.second) - Zone(s) * MS_PER_MINUTE)
  {
    AcceptedIffLegal(s);
  }

  lemma SameFields(c: Civil, t: int)
    requires RealDate(c)
    ensures CivilOf(t) == c <==> t == MakeTime(c.year, c.month, c.day, c.hour, c.minute, c.second) + c.ms
  {
    CivilOfMake(c);
    MakeOfCivil(t);
  }

  lemma LocalIs(s: Stamp, u: int)
    requires RealDate(LocalTime(s))
    ensures LocalOf(s, u) == LocalTime(s) <==>
            u == MakeTime(s.year, s.month, s.day, s.hour, s.minute, s.second) - Zone(s) * MS_PER_MINUTE
  {
    SameFields(LocalTime(s), u + Zone(s) * MS_PER_MINUTE);
  }

  /** The instant returned is the one whose local time at the given offset is the stamp, and no other
      instant has it. */
  lemma InstantIsUnique(s: Stamp, u: int)
    requires Shaped(s) && Legal(s)
    ensures Instant(s).Some? && (LocalOf(s, u) == LocalTime(s) <==> u == Instant(s).value)
  {
    LegalInstant(s);
    LocalIs(s, u);
  }

  /** Days are counted from 1970 by whole years and months. */
  lemma InstantCountsDays(s: Stamp)
    requires Shaped(s) && Legal(s)
    ensures Instant(s) == Some((YearStart(s.year) + MonthStart(s.year, s.month) + s.day - 1) * MS_PER_DAY
                               + ((s.hour * 60 + s.minute - Zone(s)) * 60 + s.second) * 1000)
  {
    LegalInstant(s);
    MakeDayPlain(s.year, s.month, s.day);
  }

  // ----- The text -----

  const MONTHS := ["Jan", "Feb", "Mar", "Apr", "May", "Jun", "Jul", "Aug", "Sep", "Oct", "Nov", "Dec"]

  function MonthIndex(name: string, m: nat): (r: int)
    requires m <= 12
    ensures r == -1 || (m <= r <= 11 && MONTHS[r] == name)
    decreases 12 - m
  {
    if m == 12 then -1 else if MONTHS[m] == name then m else MonthIndex(name, m + 1)
  }

  predicate IsDigit(c: char) { '0' <= c <= '9' }

  function DigitValue(c: char): int { c as int - '0' as int }

  predicate TwoDigits(t: string, i: nat)
    requires i + 2 <= |t|
  {
    IsDigit(t[i]) && IsDigit(t[i + 1])
  }

  function Two(t: string, i: nat): int
    requires i + 2 <= |t|
  {
    DigitValue(t[i]) * 10 + DigitValue(t[i + 1])
  }

  /** dd/Mon/yyyy:HH:MM:SS +hhmm */
  predicate WellFormed(t: string) {
    && |t| == 26
    && TwoDigits(t, 0) && t[2] == '/' && 'A' <= t[3] <= 'Z' && 'a' <= t[4] <= 'z' && 'a' <= t[5] <= 'z' && t[6] == '/'
    && TwoDigits(t, 7) && TwoDigits(t, 9) && t[11] == ':' && TwoDigits(t, 12) && t[14] == ':' && TwoDigits(t, 15)
    && t[17] == ':' && TwoDigits(t, 18) && t[20] == ' ' && (t[21] == '+' || t[21] == '-')
    && TwoDigits(t, 22) && TwoDigits(t, 24)
  }

  function Fields(t: string): Stamp
    requires WellFormed(t)
  {
    Stamp(Two(t, 0), MonthIndex(t[3..6], 0), Two(t, 7) * 100 + Two(t, 9), Two(t, 12), Two(t, 15), Two(t, 18),
          t[21] == '+', Two(t, 22), Two(t, 24))
  }

  function Occurred(t: string): Option<int> {
    if WellFormed(t) then Instant(Fields(t)) else None
  }

  function Digit(n: int): char
    requires 0 <= n <= 9
  {
    ('0' as int + n) as char
  }

  function Hi(n: int): char
    requires 0 <= n <= 99
  {
    Digit(n / 10)
  }

  function Lo(n: int): char
    requires 0 <= n <= 99
  {
    Digit(n % 10)
  }

  function Format(s: Stamp): (t: string)
    requires Shaped(s) && s.month >= 0
    ensures |t| == 26
  {
    var name := MONTHS[s.month];
    [Hi(s.day), Lo(s.day), '/', name[0], name[1], name[2], '/',
     Hi(s.year / 100), Lo(s.year / 100), Hi(s.year % 100), Lo(s.year % 100), ':',
     Hi(s.hour), Lo(s.hour), ':', Hi(s.minute), Lo(s.minute), ':', Hi(s.second), Lo(s.second), ' ',
     if s.east then '+' else '-', Hi(s.zoneHour), Lo(s.zoneHour), Hi(s.zoneMinute), Lo(s.zoneMinute)]
  }

  lemma DigitsOfTwo(t: string, i: nat)
    requires i + 2 <= |t| && TwoDigits(t, i)
    ensures 0 <= Two(t, i) <= 99 && Hi(Two(t, i)) == t[i] && Lo(Two(t, i)) == t[i + 1]
  {
  }

  lemma TwoOfDigits(t: string, i: nat, n: int)
    requires i + 2 <= |t| && 0 <= n <= 99 && t[i] == Hi(n) && t[i + 1] == Lo(n)
    ensures TwoDigits(t, i) && Two(t, i) == n
  {
  }

  lemma FieldsShaped(t: string)
    requires WellFormed(t)
    ensures Shaped(Fields(t))
  {
    DigitsOfTwo(t, 0);
    DigitsOfTwo(t, 7);
    DigitsOfTwo(t, 9);
    DigitsOfTwo(t, 12);
    DigitsOfTwo(t, 15);
    DigitsOfTwo(t, 18);
    DigitsOfTwo(t, 22);
    DigitsOfTwo(t, 24);
  }

  lemma MonthLetters(m: nat)
    requires m <= 11
    ensures |MONTHS[m]| == 3 && 'A' <= MONTHS[m][0] <= 'Z' && 'a' <= MONTHS[m][1] <= 'z' && 'a' <= MONTHS[m][2] <= 'z'
  {
  }

  lemma {:induction false} MonthFound(m: nat, n: nat)
    requires n <= m <= 11
    ensures MonthIndex(MONTHS[m], n) == m
    decreases m - n
  {
    if n < m {
      MonthNamesDiffer(n, m);
      MonthFound(m, n + 1);
    }
  }

  lemma MonthNamesDiffer(n: nat, m: nat)
    requires n < m <= 11
    ensures MONTHS[n] != MONTHS[m]
  {
  }

  /** A well-formed text whose month exists is the text form of its fields. */
  lemma TextOfFields(t: string)
    requires WellFormed(t) && Fields(t).month >= 0
    ensures Shaped(Fields(t)) && Format(Fields(t)) == t
  {
    FieldsShaped(t);
    var f := Format(Fields(t));
    DateSame(t);
    YearSame(t);
    ClockSame(t);
    ZoneSame(t);
    assert f == f[0..7] + f[7..12] + f[12..21] + f[21..26];
    assert t == t[0..7] + t[7..12] + t[12..21] + t[21..26];
  }

  lemma DateSame(t: string)
    requires WellFormed(t) && Fields(t).month >= 0
    ensures Shaped(Fields(t)) && Format(Fields(t))[0..7] == t[0..7]
  {
    FieldsShaped(t);
    DigitsOfTwo(t, 0);
    assert MONTHS[Fields(t).month] == t[3..6];
  }

  lemma YearSame(t: string)
    requires WellFormed(t) && Fields(t).month >= 0
    ensures Shaped(Fields(t)) && Format(Fields(t))[7..12] == t[7..12]
  {
    FieldsShaped(t);
    DigitsOfTwo(t, 7);
    DigitsOfTwo(t, 9);
    assert Fields(t).year / 100 == Two(t, 7) && Fields(t).year % 100 == Two(t, 9);
  }

  lemma ClockSame(t: string)
    requires WellFormed(t) && Fields(t).month >= 0
    ensures Shaped(Fields(t)) && Format(Fields(t))[12..21] == t[12..21]
  {
    FieldsShaped(t);
    DigitsOfTwo(t, 12);
    DigitsOfTwo(t, 15);
    DigitsOfTwo(t, 18);
  }

  lemma ZoneSame(t: string)
    requires WellFormed(t) && Fields(t).month >= 0
    ensures Shaped(Fields(t)) && Format(Fields(t))[21..26] == t[21..26]
  {
    FieldsShaped(t);
    DigitsOfTwo(t, 22);
    DigitsOfTwo(t, 24);
  }

  lemma MonthOfFormat(s: Stamp)
    requires Shaped(s) && s.month >= 0
    ensures Format(s)[3..6] == MONTHS[s.month]
  {
    var f, name := Format(s), MONTHS[s.month];
    MonthLetters(s.month);
    assert f[3] == name[0] && f[4] == name[1] && f[5] == name[2];
    assert name == [name[0], name[1], name[2]];
    assert f[3..6] == [f[3], f[4], f[5]];
  }

  /** The numbers of a text, read at their places. */
  predicate NumbersAt(t: string, s: Stamp)
    requires |t| == 26
  {
    && TwoDigits(t, 0) && Two(t, 0) == s.day && TwoDigits(t, 7) && TwoDigits(t, 9)
    && Two(t, 7) * 100 + Two(t, 9) == s.year
    && TwoDigits(t, 12) && Two(t, 12) == s.hour && TwoDigits(t, 15) && Two(t, 15) == s.minute
    && TwoDigits(t, 18) && Two(t, 18) == s.second && TwoDigits(t, 22) && Two(t, 22) == s.zoneHour
    && TwoDigits(t, 24) && Two(t, 24) == s.zoneMinute
  }

  lemma NumbersOfFormat(s: Stamp)
    requires Shaped(s) && s.month >= 0
    ensures NumbersAt(Format(s), s)
  {
    var f := Format(s);
    TwoOfDigits(f, 0, s.day);
    TwoOfDigits(f, 7, s.year / 100);
    TwoOfDigits(f, 9, s.year % 100);
    TwoOfDigits(f, 12, s.hour);
    TwoOfDigits(f, 15, s.minute);
    TwoOfDigits(f, 18, s.second);
    TwoOfDigits(f, 22, s.zoneHour);
    TwoOfDigits(f, 24, s.zoneMinute);
  }

  lemma MarksOfFormat(s: Stamp)
    requires Shaped(s) && s.month >= 0
    ensures var t := Format(s);
            && t[2] == '/' && t[6] == '/' && t[11] == ':' && t[14] == ':' && t[17] == ':' && t[20] == ' '
            && t[21] == (if s.east then '+' else '-')
            && 'A' <= t[3] <= 'Z' && 'a' <= t[4] <= 'z' && 'a' <= t[5] <= 'z'
  {
    MonthLetters(s.month);
  }

  /** The text form of shaped fields is well-formed and read back. */
  lemma FieldsOfText(s: Stamp)
    requires Shaped(s) && s.month >= 0
    ensures WellFormed(Format(s)) && Fields(Format(s)) == s
  {
    NumbersOfFormat(s);
    MarksOfFormat(s);
    MonthOfFormat(s);
    MonthFound(s.month, 0);
  }

  /** occurred accepts exactly the texts of legal timestamps, and returns their instant. */
  lemma OccurredExact(t: string)
    ensures Occurred(t).Some? <==> exists s :: Shaped(s) && Legal(s) && t == Format(s)
    ensures forall s :: Shaped(s) && Legal(s) && t == Format(s) ==> Occurred(t) == Instant(s)
  {
    if Occurred(t).Some? {
      FieldsShaped(t);
      AcceptedIffLegal(Fields(t));
      TextOfFields(t);
    }
    forall s | Shaped(s) && Legal(s) && t == Format(s) ensures Occurred(t) == Instant(s) && Instant(s).Some? {
      FieldsOfText(s);
      AcceptedIffLegal(s);
    }
  }
}
