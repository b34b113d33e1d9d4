/**
 UTC dates from epoch seconds.

 The signers compute a civil date from a day number in closed form (March-based
 years in 400-year eras).  The reference here is the Gregorian calendar itself:
 start at 1970-01-01 and step one day at a time.
 */
module Calendar {
  import opened Decimal
  import Bytes

  datatype Date = Date(year: nat, month: nat, day: nat)

  // ---- the calendar, a day at a time ----------------------------------------------

  predicate IsLeap(y: nat) {
    y % 4 == 0 && (y % 100 != 0 || y % 400 == 0)
  }

  function DaysInMonth(y: nat, m: nat): nat {
    if m == 2 then if IsLeap(y) then 29 else 28
    else if m == 4 || m == 6 || m == 9 || m == 11 then 30
    else 31
  }

  function NextDay(t: Date): Date {
    if t.day < DaysInMonth(t.year, t.month) then Date(t.year, t.month, t.day + 1)
    else if t.month < 12 then Date(t.year, t.month + 1, 1)
    else Date(t.year + 1, 1, 1)
  }

  function DateAfter(days: nat): Date {
    if days == 0 then Date(1970, 1, 1) else NextDay(DateAfter(days - 1))
  }

  /** 0 is Sunday; 1970-01-01 was a Thursday. */
  function WeekdayAfter(days: nat): nat {
    if days == 0 then 4 else (WeekdayAfter(days - 1) + 1) % 7
  }

  // ---- the closed form ------------------------------------------------------------------

  /** March-based year and day of that year of a day counted from 1 March of year 0. */
  function YearDay(z: nat): (int, int) {
    var era := z / 146_097;
    var doe := z - era * 146_097;
    var yoe := YearOfEra(doe);
    (yoe + era * 400, doe - (365 * yoe + yoe / 4 - yoe / 100))
  }

  function YearOfEra(doe: int): int {
    (doe - doe / 1460 + doe / 36_524 - doe / 146_096) / 365
  }

  /** Civil year, month and day of a day of the March-based year. */
  function MonthDay(y: int, doy: int): (int, int, int) {
    var mp := (5 * doy + 2) / 153;
    var d := doy - (153 * mp + 2) / 5 + 1;
    var m := if mp < 10 then mp + 3 else mp - 9;
    (y + (if m <= 2 then 1 else 0), m, d)
  }

  function Civil(days: nat): (int, int, int) {
    var (y, doy) := YearDay(days + 719_468);
    MonthDay(y, doy)
  }

  function Weekday(days: nat): nat {
    (days % 7 + 7 + 4) % 7
  }

  /** A position in the 400-year cycle: century, four-year group, year, day of the March-based year. */
  datatype Parts = Parts(era: nat, b: nat, q: nat, t: nat, doy: nat)

  /** The March-based year ends in a 29 February. */
  predicate LongYear(p: Parts) {
    p.t == 3 && (p.q != 24 || p.b == 3)
  }

  predicate ValidParts(p: Parts) {
    p.b <= 3 && p.q <= 24 && p.t <= 3 && p.doy <= 365 && (p.doy == 365 ==> LongYear(p))
  }

  function DayNumber(p: Parts): nat {
    146_097 * p.era + 36_524 * p.b + 1461 * p.q + 365 * p.t + p.doy
  }

  function MarchYear(p: Parts): nat {
    400 * p.era + 100 * p.b + 4 * p.q + p.t
  }

  /** Every day number has a position. */
  lemma PartsOf(z: nat) returns (p: Parts)
    ensures ValidParts(p) && DayNumber(p) == z
  {
    var era, doe := z / 146_097, z % 146_097;
    var b := if doe / 36_524 > 3 then 3 else doe / 36_524;
    var r1 := doe - 36_524 * b;
    var q, r2 := r1 / 1461, r1 % 1461;
    var t := if r2 / 365 > 3 then 3 else r2 / 365;
    p := Parts(era, b, q, t, r2 - 365 * t);
  }

  /** The closed form finds the year of the era. */
  lemma YearOfEraIsRight(p: Parts)
    requires ValidParts(p) && p.era == 0
    ensures DayNumber(p) < 146_097 && YearOfEra(DayNumber(p)) == MarchYear(p)
  {
    var doe := DayNumber(p);
    var low := 24 * p.b + p.q + 365 * p.t + p.doy;
    var e := if low >= 1460 then 1 else 0;
    assert doe == 1460 * (25 * p.b + p.q) + low;
    assert doe / 1460 == 25 * p.b + p.q + e;
    if doe != 146_096 {
      assert 1461 * p.q + 365 * p.t + p.doy < 36_524;
      assert doe / 36_524 == p.b;
      assert doe / 146_096 == 0;
    }
    assert doe - doe / 1460 + doe / 36_524 - doe / 146_096 == 365 * MarchYear(p) + (p.doy - e);
  }

  lemma YearDayOfParts(p: Parts)
    requires ValidParts(p)
    ensures YearDay(DayNumber(p)) == (MarchYear(p), p.doy)
  {
    hide *;
    var p0 := p.(era := 0);
    EraApart(p);
    YearOfEraIsRight(p0);
    Bytes.ModUnique(DayNumber(p), 146_097, p.era, DayNumber(p0));
    DayOfYear(DayNumber(p0), MarchYear(p0), p.b, p.q, p.t, p.doy);
    YearDayFrom(DayNumber(p), p.era, DayNumber(p0), MarchYear(p0));
  }

  /** The era counts separately. */
  lemma EraApart(p: Parts)
    requires ValidParts(p)
    ensures var p0 := p.(era := 0);
            && ValidParts(p0) && DayNumber(p) == 146_097 * p.era + DayNumber(p0)
            && MarchYear(p) == MarchYear(p0) + p.era * 400
            && DayNumber(p0) == 36_524 * p.b + 1461 * p.q + 365 * p.t + p.doy
            && MarchYear(p0) == 100 * p.b + 4 * p.q + p.t && p.q <= 24 && p.t <= 3
  {
  }

  lemma YearDayFrom(z: nat, era: nat, doe: nat, yoe: int)
    requires z / 146_097 == era && z == 146_097 * era + doe && YearOfEra(doe) == yoe
    ensures YearDay(z) == (yoe + era * 400, doe - (365 * yoe + yoe / 4 - yoe / 100))
  {
    hide YearOfEra;
  }

  lemma DayOfYear(doe: nat, yoe: nat, b: nat, q: nat, t: nat, doy: nat)
    requires q <= 24 && t <= 3
    requires doe == 36_524 * b + 1461 * q + 365 * t + doy && yoe == 100 * b + 4 * q + t
    ensures doe - (365 * yoe + yoe / 4 - yoe / 100) == doy
  {
    assert yoe / 4 == 25 * b + q;
    assert yoe / 100 == b;
  }

  lemma CivilOfParts(days: nat, p: Parts)
    requires ValidParts(p) && DayNumber(p) == days + 719_468
    ensures Civil(days) == MonthDay(MarchYear(p), p.doy)
  {
    YearDayOfParts(p);
    hide YearDay, MonthDay, MarchYear;
  }

  /** The next position, with carries. */
  function NextParts(p: Parts): Parts {
    if p.doy < 364 || (p.doy == 364 && LongYear(p)) then p.(doy := p.doy + 1)
    else if p.t < 3 then p.(t := p.t + 1, doy := 0)
    else if p.q < 24 then p.(q := p.q + 1, t := 0, doy := 0)
    else if p.b < 3 then p.(b := p.b + 1, q := 0, t := 0, doy := 0)
    else Parts(p.era + 1, 0, 0, 0, 0)
  }

  lemma NextPartsCount(p: Parts)
    requires ValidParts(p)
    ensures ValidParts(NextParts(p)) && DayNumber(NextParts(p)) == DayNumber(p) + 1
  {
  }

  lemma LongYearIsLeap(p: Parts)
    requires ValidParts(p)
    ensures LongYear(p) <==> IsLeap(MarchYear(p) + 1)
  {
    var y, c := MarchYear(p) + 1, 4 * p.q + p.t + 1;
    ModCarry(y, 4, 100 * p.era + 25 * p.b + p.q, p.t + 1);
    ModCarry(y, 100, 4 * p.era + p.b, c);
    ModCarry(y, 400, p.era, 100 * p.b + c);
  }

  lemma ModCarry(y: int, n: int, k: int, r: int)
    requires 0 < r <= n && y == n * k + r
    ensures y % n == 0 <==> r == n
  {
    if r == n {
      assert n * (k + 1) == n * k + n;
      Bytes.ModUnique(y, n, k + 1, 0);
    } else {
      Bytes.ModUnique(y, n, k, r);
    }
  }

  /** Index of the month, from March, of a day of the March-based year. */
  function MonthIndex(doy: nat): nat {
    if doy < 31 then 0 else if doy < 61 then 1 else if doy < 92 then 2
    else if doy < 122 then 3 else if doy < 153 then 4 else if doy < 184 then 5
    else if doy < 214 then 6 else if doy < 245 then 7 else if doy < 275 then 8
    else if doy < 306 then 9 else if doy < 337 then 10 else 11
  }

  /** First day of each month of the March-based year. */
  function MonthStart(mp: nat): nat {
    if mp == 0 then 0 else if mp == 1 then 31 else if mp == 2 then 61
    else if mp == 3 then 92 else if mp == 4 then 122 else if mp == 5 then 153
    else if mp == 6 then 184 else if mp == 7 then 214 else if mp == 8 then 245
    else if mp == 9 then 275 else if mp == 10 then 306 else 337
  }

  lemma MonthTables(doy: nat)
    requires doy <= 365
    ensures (5 * doy + 2) / 153 == MonthIndex(doy)
    ensures (153 * MonthIndex(doy) + 2) / 5 == MonthStart(MonthIndex(doy))
  {
  }

  lemma StepWithinYear(p: Parts)
    requires ValidParts(p) && NextParts(p) == p.(doy := p.doy + 1)
    ensures var (y, m, d) := MonthDay(MarchYear(p), p.doy);
            && 0 < m <= 12 && 0 < d && y >= 0
            && var t := NextDay(Date(y, m, d));
               MonthDay(MarchYear(p), p.doy + 1) == (t.year, t.month, t.day)
  {
    LongYearIsLeap(p);
    assert p.doy <= 364 && (p.doy == 364 ==> IsLeap(MarchYear(p) + 1));
    hide *;
    NextOfMonth(MarchYear(p), p.doy);
  }

  /** Within a March-based year the day after the last of a month is the first of the next. */
  lemma NextOfMonth(y: nat, doy: nat)
    requires doy <= 364 && (doy == 364 ==> IsLeap(y + 1))
    ensures var (year, m, d) := MonthDay(y, doy);
            && 0 < m <= 12 && 0 < d && year >= 0
            && var t := NextDay(Date(year, m, d));
               MonthDay(y, doy + 1) == (t.year, t.month, t.day)
  {
    hide *;
    ByTable(y, doy);
    ByTable(y, doy + 1);
    MonthSpan(doy);
    var mp := MonthIndex(doy);
    MonthLength(y, mp);
    var (year, m, d) := MonthDay(y, doy);
    DayAfter(year, m, d);
  }

  lemma DayAfter(year: nat, m: nat, d: nat)
    ensures NextDay(Date(year, m, d))
            == if d < DaysInMonth(year, m) then Date(year, m, d + 1)
               else if m < 12 then Date(year, m + 1, 1) else Date(year + 1, 1, 1)
  {
  }

  /** The day after stays in the month or starts the next one. */
  lemma MonthSpan(doy: nat)
    requires doy <= 364
    ensures var mp := MonthIndex(doy);
            && mp <= 11 && MonthStart(mp) <= doy
            && (mp < 11 ==> doy < MonthStart(mp + 1))
            && MonthIndex(doy + 1) == if mp < 11 && doy + 1 == MonthStart(mp + 1) then mp + 1 else mp
  {
  }

  /** A month is as long as the calendar says; February has what is left of the year. */
  lemma MonthLength(y: nat, mp: nat)
    requires mp <= 11
    ensures var m := if mp < 10 then mp + 3 else mp - 9;
            var year := y + if m <= 2 then 1 else 0;
            DaysInMonth(year, m)
            == if mp < 11 then MonthStart(mp + 1) - MonthStart(mp) else if IsLeap(year) then 29 else 28
    ensures MonthStart(11) == 337
  {
    hide IsLeap;
  }

  /** Month and day read off the tables. */
  lemma ByTable(y: nat, doy: nat)
    requires doy <= 365
    ensures var mp := MonthIndex(doy);
            var m := if mp < 10 then mp + 3 else mp - 9;
            MonthDay(y, doy) == (y + (if m <= 2 then 1 else 0), m, doy - MonthStart(mp) + 1)
  {
    hide MonthIndex, MonthStart;
    MonthTables(doy);
  }

  lemma StepOverYear(p: Parts)
    requires ValidParts(p) && NextParts(p) != p.(doy := p.doy + 1)
    ensures var (y, m, d) := MonthDay(MarchYear(p), p.doy);
            && 0 < m <= 12 && 0 < d && y >= 0
            && var t := NextDay(Date(y, m, d));
               MonthDay(MarchYear(NextParts(p)), 0) == (t.year, t.month, t.day)
  {
    LongYearIsLeap(p);
    assert p.doy == 364 || p.doy == 365;
    assert p.doy == 365 <==> IsLeap(MarchYear(p) + 1);
    NextYear(p);
    hide *;
    YearEnds(MarchYear(p), p.doy);
  }

  /** The last day of a March-based year is the last of February. */
  lemma YearEnds(y: nat, doy: nat)
    requires if IsLeap(y + 1) then doy == 365 else doy == 364
    ensures var (year, m, d) := MonthDay(y, doy);
            && 0 < m <= 12 && 0 < d && year >= 0
            && var t := NextDay(Date(year, m, d));
               MonthDay(y + 1, 0) == (t.year, t.month, t.day)
  {
    ByTable(y, doy);
    ByTable(y + 1, 0);
    hide MonthDay, IsLeap;
    MonthLength(y, 11);
  }

  lemma EpochDay()
    ensures Civil(0) == (1970, 1, 1)
  {
    hide YearDay;
    CivilOfParts(0, Parts(4, 3, 17, 1, 306));
    MonthTables(306);
  }

  function Triple(t: Date): (int, int, int) {
    (t.year, t.month, t.day)
  }

  lemma CivilStep(days: nat, t: Date)
    requires Civil(days) == Triple(t)
    ensures Civil(days + 1) == Triple(NextDay(t))
  {
    hide Civil, MonthDay, NextDay, NextParts, DayNumber, MarchYear, ValidParts;
    var p := PartsOf(days + 719_468);
    CivilOfParts(days, p);
    NextPartsCount(p);
    CivilOfParts(days + 1, NextParts(p));
    if NextParts(p) == p.(doy := p.doy + 1) {
      StepWithinYear(p);
      SameYear(p);
    } else {
      StepOverYear(p);
      NextYear(p);
    }
  }

  /** For every day since the epoch the closed form is the date the calendar reaches by stepping. */
  lemma {:induction false} CivilIsDateAfter(days: nat)
    ensures Civil(days) == Triple(DateAfter(days))
  {
    hide Civil, NextDay;
    if days == 0 {
      EpochDay();
    } else {
      CivilIsDateAfter(days - 1);
      CivilStep(days - 1, DateAfter(days - 1));
    }
  }

  lemma SameYear(p: Parts)
    requires NextParts(p) == p.(doy := p.doy + 1)
    ensures MarchYear(NextParts(p)) == MarchYear(p) && NextParts(p).doy == p.doy + 1
  {
  }

  lemma NextYear(p: Parts)
    requires NextParts(p) != p.(doy := p.doy + 1)
    ensures NextParts(p).doy == 0
    ensures ValidParts(p) ==> MarchYear(NextParts(p)) == MarchYear(p) + 1
  {
  }

  lemma WeekdayStep(days: nat)
    ensures Weekday(days + 1) == (Weekday(days) + 1) % 7
  {
    NextRemainder(days + 1);
    var r := days % 7;
    assert Weekday(days) == (r + 11) % 7;
  }

  lemma {:induction false} WeekdayIsWeekdayAfter(days: nat)
    ensures Weekday(days) == WeekdayAfter(days)
  {
    if days > 0 {
      WeekdayIsWeekdayAfter(days - 1);
      WeekdayStep(days - 1);
      hide Weekday;
    }
  }

  lemma NextRemainder(days: nat)
    requires days > 0
    ensures days % 7 == if (days - 1) % 7 == 6 then 0 else (days - 1) % 7 + 1
  {
  }

  /** The calendar only produces dates that exist. */
  lemma {:induction false} DateAfterIsReal(days: nat)
    ensures var t := DateAfter(days);
            t.year >= 1970 && 1 <= t.month <= 12 && 1 <= t.day <= DaysInMonth(t.year, t.month)
  {
    if days > 0 {
      DateAfterIsReal(days - 1);
    }
  }

  // ---- the two printed forms ---------------------------------------------------------------------

  const WD: seq<string> := ["Sun", "Mon", "Tue", "Wed", "Thu", "Fri", "Sat"]
  const MON: seq<string> :=
    ["Jan", "Feb", "Mar", "Apr", "May", "Jun", "Jul", "Aug", "Sep", "Oct", "Nov", "Dec"]

  /** `YYYYMMDD` and `YYYYMMDDTHHMMSSZ`. */
  function YmdHms(secs: nat): (string, string) {
    CivilIsDateAfter(secs / 86_400);
    DateAfterIsReal(secs / 86_400);
    var sod := secs % 86_400;
    var (h, mi, s) := (sod / 3600, sod % 3600 / 60, sod % 60);
    var (year, m, d) := Civil(secs / 86_400);
    var date := Padded(year, 4) + Padded(m, 2) + Padded(d, 2);
    (date, date + "T" + Padded(h, 2) + Padded(mi, 2) + Padded(s, 2) + "Z")
  }

  /** `Sun, 24 Nov 2013 08:31:35 GMT` */
  function HttpDate(secs: nat): string {
    CivilIsDateAfter(secs / 86_400);
    DateAfterIsReal(secs / 86_400);
    var sod := secs % 86_400;
    var (h, mi, s) := (sod / 3600, sod % 3600 / 60, sod % 60);
    var (year, m, d) := Civil(secs / 86_400);
    WD[Weekday(secs / 86_400)] + ", " + Padded(d, 2) + " " + MON[m - 1] + " " + Padded(year, 4) + " "
    + Padded(h, 2) + ":" + Padded(mi, 2) + ":" + Padded(s, 2) + " GMT"
  }

  lemma TwoDigits(n: nat)
    requires n < 100
    ensures |Padded(n, 2)| == 2 && Spelled(Padded(n, 2)) == n
  {
    assert Pow10(2) == 100;
    DecLength(n, 2);
    SpelledPadded(n, 2);
  }

  /** The pieces of the two printed forms. */
  datatype Stamp = Stamp(year: string, month: string, day: string, hour: string, min: string, sec: string)

  ghost predicate Spells(t: Stamp, secs: nat) {
    var date := DateAfter(secs / 86_400);
    && AllDigits(t.year) && AllDigits(t.month) && AllDigits(t.day)
    && AllDigits(t.hour) && AllDigits(t.min) && AllDigits(t.sec)
    && |t.year| >= 4 && |t.month| == |t.day| == |t.hour| == |t.min| == |t.sec| == 2
    && Spelled(t.year) == date.year && Spelled(t.month) == date.month && Spelled(t.day) == date.day
    && Spelled(t.hour) < 24 && Spelled(t.min) < 60 && Spelled(t.sec) < 60
    && secs == 86_400 * (secs / 86_400) + 3600 * Spelled(t.hour) + 60 * Spelled(t.min) + Spelled(t.sec)
  }

  /**
   For every epoch second both printed forms are made of the same digits, which
   spell the date the calendar reaches by stepping and a time of day that adds
   up to the second again; the weekday is the one reached by stepping.
   */
  lemma PrintedDates(secs: nat) returns (t: Stamp)
    ensures Spells(t, secs)
    ensures YmdHms(secs).0 == t.year + t.month + t.day
    ensures YmdHms(secs).1 == YmdHms(secs).0 + "T" + t.hour + t.min + t.sec + "Z"
    ensures 1 <= DateAfter(secs / 86_400).month <= 12 && WeekdayAfter(secs / 86_400) < 7
    ensures HttpDate(secs)
            == WD[WeekdayAfter(secs / 86_400)] + ", " + t.day + " " + MON[DateAfter(secs / 86_400).month - 1]
               + " " + t.year + " " + t.hour + ":" + t.min + ":" + t.sec + " GMT"
  {
    hide *;
    StampTexts(secs);
    StampSpells(secs);
    t := StampOf(secs);
  }

  /** The six numbers of a second, zero-padded. */
  function StampOf(secs: nat): Stamp {
    var date, sod := DateAfter(secs / 86_400), secs % 86_400;
    Stamp(Padded(date.year, 4), Padded(date.month, 2), Padded(date.day, 2),
          Padded(sod / 3600, 2), Padded(sod % 3600 / 60, 2), Padded(sod % 60, 2))
  }

  lemma StampSpells(secs: nat)
    ensures Spells(StampOf(secs), secs)
  {
    var date, sod := DateAfter(secs / 86_400), secs % 86_400;
    DateAfterIsReal(secs / 86_400);
    TimeOfDay(secs);
    hide DateAfter, Padded, Spelled, AllDigits;
    SpelledPadded(date.year, 4);
    TwoDigits(date.month);
    TwoDigits(date.day);
    TwoDigits(sod / 3600);
    TwoDigits(sod % 3600 / 60);
    TwoDigits(sod % 60);
  }

  /** The texts put those six together. */
  lemma StampTexts(secs: nat)
    ensures var t := StampOf(secs);
            && YmdHms(secs).0 == t.year + t.month + t.day
            && YmdHms(secs).1 == YmdHms(secs).0 + "T" + t.hour + t.min + t.sec + "Z"
            && 1 <= DateAfter(secs / 86_400).month <= 12 && WeekdayAfter(secs / 86_400) < 7
            && HttpDate(secs)
               == WD[WeekdayAfter(secs / 86_400)] + ", " + t.day + " " + MON[DateAfter(secs / 86_400).month - 1]
                  + " " + t.year + " " + t.hour + ":" + t.min + ":" + t.sec + " GMT"
  {
    hide Civil, DateAfter, Padded, WeekdayAfter, Weekday;
    CivilIsDateAfter(secs / 86_400);
    DateAfterIsReal(secs / 86_400);
    WeekdayIsWeekdayAfter(secs / 86_400);
    WeekdayBelow(secs / 86_400);
  }

  lemma WeekdayBelow(days: nat)
    ensures Weekday(days) < 7
  {
  }

  lemma TimeOfDay(secs: nat)
    ensures var sod := secs % 86_400;
            && sod / 3600 < 24 && sod % 3600 / 60 < 60
            && secs == 86_400 * (secs / 86_400) + 3600 * (sod / 3600) + 60 * (sod % 3600 / 60) + sod % 60
  {
    var sod := secs % 86_400;
    assert sod == 3600 * (sod / 3600) + sod % 3600;
    assert sod % 60 == sod % 3600 % 60;
  }
}
