/** Instants, local times and DOS stamps: the conversions behind every date and time the daemon sends or takes. */
module Clock {
  // ----- The calendar -----

  /** A local time as a calendar and a clock on the wall show it. */
  datatype Local = Local(year: int, month: int, day: int, hour: int, minute: int, second: int)

  const DAY: int := 86400

  predicate IsLeap(year: int) { year % 4 == 0 && (year % 100 != 0 || year % 400 == 0) }

  function DaysIn(year: int, month: int): int {
    if month == 2 then if IsLeap(year) then 29 else 28
    else if month == 4 || month == 6 || month == 9 || month == 11 then 30
    else 31
  }

  predicate IsDate(year: int, month: int, day: int) { 1 <= month <= 12 && 1 <= day <= DaysIn(year, month) }

  const MONTHS := [31, 28, 31, 30, 31, 30, 31, 31, 30, 31, 30, 31]

  /** The months of the calendar, and the day that a leap year adds. */
  lemma MonthLengths(year: int, month: int)
    requires 1 <= month <= 12
    ensures DaysIn(year, month) == MONTHS[month - 1] + if IsLeap(year) && month == 2 then 1 else 0
  {
  }

  /** What the datetime constructor takes, years apart. */
  predicate IsLocal(l: Local) {
    && IsDate(l.year, l.month, l.day)
    && 0 <= l.hour < 24 && 0 <= l.minute < 60 && 0 <= l.second < 60
  }

  /** Days from 1 January 1970 to 1 January of a year. */
  function DaysBefore(year: int): int {
    365 * (year - 1970) + (year - 1) / 4 - (year - 1) / 100 + (year - 1) / 400 - 477
  }

  /** Days from 1 January to the first of a month. */
  function DaysBeforeMonth(year: int, month: int): int {
    if month <= 1 then 0 else DaysBeforeMonth(year, month - 1) + DaysIn(year, month - 1)
  }

  function SecondOfDay(l: Local): int { 3600 * l.hour + 60 * l.minute + l.second }

  function DayOf(l: Local): int { DaysBefore(l.year) + DaysBeforeMonth(l.year, l.month) + l.day - 1 }

  /** Seconds from the start of 1970 to a local time. */
  function Seconds(l: Local): int { DAY * DayOf(l) + SecondOfDay(l) }

  lemma Fourth(n: int)
    ensures n / 4 - (n - 1) / 4 == if n % 4 == 0 then 1 else 0
  {
  }

  lemma Quotient100(n: int, q: int, m: int)
    requires n == 100 * q + m && 0 <= m < 100
    ensures n / 100 == q
  {
  }

  lemma Hundredth(n: int)
    ensures n / 100 - (n - 1) / 100 == if n % 100 == 0 then 1 else 0
    ensures n % 100 == 0 ==> n % 4 == 0
  {
    var q, m := n / 100, n % 100;
    if m == 0 { Quotient100(n - 1, q - 1, 99); } else { Quotient100(n - 1, q, m - 1); }
  }

  lemma Quotient400(n: int, q: int, m: int)
    requires n == 400 * q + m && 0 <= m < 400
    ensures n / 400 == q
  {
  }

  lemma FourHundredth(n: int)
    ensures n / 400 - (n - 1) / 400 == if n % 400 == 0 then 1 else 0
    ensures n % 400 == 0 ==> n % 100 == 0
  {
    var q, m := n / 400, n % 400;
    if m == 0 { Quotient400(n - 1, q - 1, 399); } else { Quotient400(n - 1, q, m - 1); }
  }

  lemma YearStep(year: int)
    ensures DaysBefore(year + 1) == DaysBefore(year) + if IsLeap(year) then 366 else 365
  {
    Fourth(year);
    Hundredth(year);
    FourHundredth(year);
  }

  lemma YearLength(year: int)
    ensures DaysBeforeMonth(year, 13) == if IsLeap(year) then 366 else 365
    ensures DaysBefore(year + 1) == DaysBefore(year) + DaysBeforeMonth(year, 13)
  {
    hide IsLeap;
    YearStep(year);
    hide DaysBefore;
    assert DaysBeforeMonth(year, 2) == 31;
    assert DaysBeforeMonth(year, 3) == 31 + DaysIn(year, 2);
    assert DaysBeforeMonth(year, 5) == DaysBeforeMonth(year, 3) + 61;
    assert DaysBeforeMonth(year, 7) == DaysBeforeMonth(year, 5) + 61;
    assert DaysBeforeMonth(year, 9) == DaysBeforeMonth(year, 7) + 62;
    assert DaysBeforeMonth(year, 11) == DaysBeforeMonth(year, 9) + 61;
    assert DaysBeforeMonth(year, 13) == DaysBeforeMonth(year, 11) + 61;
  }

  lemma {:induction false} YearsGrow(y: int, y': int)
    requires y <= y'
    ensures DaysBefore(y') >= DaysBefore(y) + 365 * (y' - y)
    decreases y' - y
  {
    if y < y' {
      YearLength(y' - 1);
      hide DaysBefore, DaysBeforeMonth;
      YearsGrow(y, y' - 1);
    }
  }

  lemma {:induction false} MonthsGrow(year: int, m: int, m': int)
    requires 1 <= m <= m'
    ensures DaysBeforeMonth(year, m') >= DaysBeforeMonth(year, m)
    ensures m < m' ==> DaysBeforeMonth(year, m') >= DaysBeforeMonth(year, m) + DaysIn(year, m)
    decreases m' - m
  {
    if m < m' { MonthsGrow(year, m, m' - 1); }
  }

  /** The year in which a day falls, searched for from a year on. */
  function YearOf(day: int, year: int): (r: int)
    ensures DaysBefore(r) <= day < DaysBefore(r + 1)
    decreases if day < DaysBefore(year) then DaysBefore(year) - day
              else if day >= DaysBefore(year + 1) then day - DaysBefore(year) else 0
  {
    hide DaysBefore, IsLeap;
    YearStep(year - 1);
    YearStep(year);
    YearStep(year + 1);
    if day < DaysBefore(year) then YearOf(day, year - 1)
    else if day >= DaysBefore(year + 1) then YearOf(day, year + 1)
    else year
  }

  /** The month in which a day of the year falls, counted from 0, searched for from a month on. */
  function MonthOf(year: int, day: int, month: int): (r: int)
    requires 1 <= month <= 12 && DaysBeforeMonth(year, month) <= day < DaysBeforeMonth(year, 13)
    ensures 1 <= r <= 12 && DaysBeforeMonth(year, r) <= day < DaysBeforeMonth(year, r) + DaysIn(year, r)
    decreases 12 - month
  {
    if day < DaysBeforeMonth(year, month) + DaysIn(year, month) then month else MonthOf(year, day, month + 1)
  }

  lemma ClockParts(n: int)
    requires 0 <= n < DAY
    ensures 0 <= n / 3600 < 24 && 0 <= n % 3600 / 60 < 60 && 0 <= n % 60 < 60
    ensures n == 3600 * (n / 3600) + 60 * (n % 3600 / 60) + n % 60
  {
  }

  /** The local time a number of seconds from the start of 1970. */
  function LocalOf(t: int): (l: Local)
    ensures IsLocal(l) && Seconds(l) == t
  {
    var year := YearOf(t / DAY, 1970);
    YearLength(year);
    var day := t / DAY - DaysBefore(year);
    var month := MonthOf(year, day, 1);
    hide DaysBefore, DaysBeforeMonth, DaysIn;
    var n := t % DAY;
    ClockParts(n);
    Local(year, month, day - DaysBeforeMonth(year, month) + 1, n / 3600, n % 3600 / 60, n % 60)
  }

  lemma YearBounds(l: Local)
    requires IsLocal(l)
    ensures DaysBefore(l.year) <= DayOf(l) < DaysBefore(l.year + 1)
  {
    YearLength(l.year);
    MonthsGrow(l.year, 1, l.month);
    MonthsGrow(l.year, l.month, 13);
    hide DaysBefore, DaysBeforeMonth, DaysIn;
  }

  lemma SameYear(l: Local, l': Local)
    requires IsLocal(l) && IsLocal(l') && DayOf(l) == DayOf(l')
    ensures l.year >= l'.year
  {
    hide DaysBefore, DaysBeforeMonth, DaysIn, DayOf;
    YearBounds(l);
    YearBounds(l');
    if l.year < l'.year { YearsGrow(l.year + 1, l'.year); }
  }

  lemma SameMonth(l: Local, l': Local)
    requires IsLocal(l) && IsLocal(l') && l.year == l'.year && DayOf(l) == DayOf(l')
    ensures l.month >= l'.month
  {
    hide DaysBefore, DaysBeforeMonth, DaysIn;
    if l.month < l'.month { MonthsGrow(l.year, l.month, l'.month); }
  }

  lemma SameDay(l: Local, l': Local)
    requires l.year == l'.year && l.month == l'.month && DayOf(l) == DayOf(l')
    ensures l.day == l'.day
  {
    hide DaysBefore, DaysBeforeMonth;
  }

  /** Each local time is a number of seconds of its own. */
  lemma SecondsDiffer(l: Local, l': Local)
    requires IsLocal(l) && IsLocal(l') && Seconds(l) == Seconds(l')
    ensures l == l'
  {
    hide DayOf, DaysIn;
    assert DayOf(l) == DayOf(l');
    SameYear(l, l');
    SameYear(l', l);
    SameMonth(l, l');
    SameMonth(l', l);
    SameDay(l, l');
  }

  lemma LocalOfSeconds(l: Local)
    requires IsLocal(l)
    ensures LocalOf(Seconds(l)) == l
  {
    hide Seconds;
    SecondsDiffer(LocalOf(Seconds(l)), l);
  }

  // ----- DOS stamps -----

  /** _dos_date: years before 1980 count as 1980. */
  function DosDate(l: Local): (date: nat)
    requires IsLocal(l)
  {
    (if l.year < 1980 then 0 else l.year - 1980) * 512 + l.month * 32 + l.day
  }

  /** _dos_time: two seconds to a tick. */
  function DosTime(l: Local): (time: nat)
    requires IsLocal(l)
    ensures time < 0xC000
  {
    l.hour * 2048 + l.minute * 32 + l.second / 2
  }

  /** The fields of a DOS date and time, as SET_TIME and CLOSE take them apart. */
  function FromDos(date: nat, time: nat): Local {
    Local(date / 512 % 128 + 1980, date / 32 % 16, date % 32, time / 2048 % 32, time / 32 % 64, time % 32 * 2)
  }

  lemma Remainder60(q: int, s: int)
    requires 0 <= s < 60
    ensures (60 * q + s) % 60 == s
  {
  }

  lemma SecondOfMinute(l: Local)
    requires IsLocal(l)
    ensures Seconds(l) % 60 == l.second
  {
    hide DaysIn, DayOf;
    Remainder60(1440 * DayOf(l) + 60 * l.hour + l.minute, l.second);
  }

  /** Fields that fit side by side can be told apart. */
  lemma SameDosDate(l: Local, l': Local)
    requires IsLocal(l) && IsLocal(l') && DosDate(l) == DosDate(l')
    ensures l.month == l'.month && l.day == l'.day
    ensures l.year == l'.year || (l.year <= 1980 && l'.year <= 1980)
  {
  }

  lemma SameDosTime(l: Local, l': Local)
    requires IsLocal(l) && IsLocal(l') && DosTime(l) == DosTime(l')
    ensures l.hour == l'.hour && l.minute == l'.minute && l.second / 2 == l'.second / 2
  {
    hide DaysIn;
  }

  /** The same day of the year lies months away in another year. */
  lemma OtherYear(l: Local, l': Local)
    requires IsLocal(l) && IsLocal(l') && l.month == l'.month && l.day == l'.day && l.year < l'.year
    ensures DayOf(l) + 300 <= DayOf(l')
  {
    hide DaysBefore, DaysBeforeMonth;
    YearsGrow(l.year, l'.year);
    MonthStart(l.year, l.month);
    MonthStart(l'.year, l.month);
  }

  lemma MonthStart(year: int, month: int)
    requires 1 <= month <= 12
    ensures 30 * (month - 1) - 2 <= DaysBeforeMonth(year, month) <= 31 * (month - 1)
  {
    hide IsLeap;
    if month > 1 { MonthStart(year, month - 1); }
  }

  /** Within two days and to the minute, a DOS stamp belongs to one local time only. */
  lemma SameStamps(l: Local, l': Local)
    requires IsLocal(l) && IsLocal(l') && DosDate(l) == DosDate(l') && DosTime(l) == DosTime(l')
    requires -2 * DAY < Seconds(l') - Seconds(l) < 2 * DAY && (Seconds(l') - Seconds(l)) % 60 == 0
    ensures l == l'
  {
    hide DaysIn, DaysBefore, DaysBeforeMonth, DosDate, DosTime;
    SameDosDate(l, l');
    SameDosTime(l, l');
    if l.year < l'.year { OtherYear(l, l'); }
    if l'.year < l.year { OtherYear(l', l); }
    hide Seconds;
    SecondOfMinute(l);
    SecondOfMinute(l');
  }

  // ----- The time zone of the host -----

  /**
   * How far the clocks on the wall are ahead at an instant, and the instant that timestamp() finds for a
   * local time; instants and local times in seconds from the start of 1970.
   */
  datatype Zone = Zone(offset: int -> int, instant: int -> int)

  function Shown(z: Zone, u: int): int { u + z.offset(u) }

  /** Some clock on the wall shows this time at some instant: it is not skipped. */
  ghost predicate IsShown(z: Zone, t: int) { exists u :: Shown(z, u) == t }

  /** From the start of 1979 to the end of 2108: what a DOS date can say, and a year to either side. */
  predicate DosEra(u: int) { DAY * DaysBefore(1979) <= u < DAY * DaysBefore(2109) }

  /** Offsets are less than a day; in the years that matter they are whole minutes and change on the minute. */
  predicate SaneOffset(z: Zone, u: int) {
    && -DAY < z.offset(u) < DAY
    && (DosEra(u) ==> z.offset(u) % 60 == 0 && z.offset(u) == z.offset(u - u % 60))
  }

  /** A local time that is shown is found; a skipped one gets an instant less than a day away, whole minutes off. */
  ghost predicate SaneInstant(z: Zone, t: int) {
    DosEra(t) ==>
      && -DAY < t - z.instant(t) < DAY && (t - z.instant(t)) % 60 == 0
      && (IsShown(z, t) ==> Shown(z, z.instant(t)) == t)
  }

  /** What is asked of the host's time zone. */
  ghost predicate IsZone(z: Zone) { (forall u :: SaneOffset(z, u)) && forall t :: SaneInstant(z, t) }

  /** A local time of the years 1980 to 2107 is well within them. */
  lemma DosYears(l: Local, u: int)
    requires IsLocal(l) && 1980 <= l.year < 2108 && -300 * DAY < u - Seconds(l) < 300 * DAY
    ensures DosEra(u)
  {
    YearBounds(l);
    YearsGrow(1980, l.year);
    YearsGrow(l.year + 1, 2108);
    hide DayOf, DaysBeforeMonth, DaysIn;
  }

  /** The stamps of an instant. */
  function StampsAt(z: Zone, u: int): (r: (nat, nat))
    ensures r.1 < 0xC000
  {
    var l := LocalOf(Shown(z, u));
    (DosDate(l), DosTime(l))
  }

  lemma SaneAt(z: Zone, u: int, t: int)
    requires IsZone(z)
    ensures SaneOffset(z, u) && SaneInstant(z, t)
  {
  }

  /** What is shown at the instant found for a local time is less than two days off, and whole minutes. */
  lemma NearMisses(z: Zone, l: Local)
    requires IsZone(z) && IsLocal(l) && 1980 <= l.year < 2108
    ensures var t := Seconds(l);
            && -2 * DAY < Shown(z, z.instant(t)) - t < 2 * DAY && (Shown(z, z.instant(t)) - t) % 60 == 0
            && (IsShown(z, t) ==> Shown(z, z.instant(t)) == t)
  {
    hide IsZone, IsShown, DosEra, IsLocal, Seconds;
    var t := Seconds(l);
    DosYears(l, t);
    SaneAt(z, z.instant(t), t);
    DosYears(l, z.instant(t));
    WholeMinutes(t - z.instant(t), z.offset(z.instant(t)));
  }

  lemma WholeMinutes(a: int, b: int)
    requires a % 60 == 0 && b % 60 == 0
    ensures (b - a) % 60 == 0
  {
    assert a == 60 * (a / 60) && b == 60 * (b / 60);
    assert b - a == 60 * (b / 60 - a / 60);
  }

  lemma DosFields(date: nat)
    requires date < 0x10000
    ensures date / 512 < 128 && date == date / 512 * 512 + date / 32 % 16 * 32 + date % 32
  {
    assert date / 512 == date / 32 / 16;
  }

  lemma DosTicks(time: nat)
    requires time < 0x10000
    ensures time / 2048 < 32 && time == time / 2048 * 2048 + time / 32 % 64 * 32 + time % 32
  {
    assert time / 2048 == time / 32 / 64;
  }

  lemma DosRoundTrip(date: nat, time: nat)
    requires date < 0x10000 && time < 0x10000 && IsLocal(FromDos(date, time))
    ensures DosDate(FromDos(date, time)) == date && DosTime(FromDos(date, time)) == time
  {
    hide DaysIn;
    DosFields(date);
    DosTicks(time);
  }

  /**
   * Read back, the stamps of a local time up to 2107 are that time, but for an odd second, and with the year 1980 for
   * every earlier one.
   */
  lemma StampsRead(l: Local)
    requires IsLocal(l) && l.year < 2108
    ensures DosDate(l) < 0x10000 && DosTime(l) < 0x10000
    ensures FromDos(DosDate(l), DosTime(l))
            == l.(year := if l.year < 1980 then 1980 else l.year, second := l.second - l.second % 2)
  {
    MonthLengths(l.year, l.month);
    hide DaysIn;
    var year := if l.year < 1980 then 0 else l.year - 1980;
    DateFields(year, l.month, l.day);
    TimeFields(l.hour, l.minute, l.second);
    Halves(l.second);
    assert year * 512 + l.month * 32 + l.day < 0x10000;
  }

  lemma DosYear(date: nat, time: nat)
    ensures 1980 <= FromDos(date, time).year < 2108
  {
  }

  /** Stamps that have gone through an instant come back exactly if they are a local time that is not skipped. */
  lemma StampsComeBack(z: Zone, date: nat, time: nat)
    requires IsZone(z) && date < 0x10000 && time < 0x10000 && IsLocal(FromDos(date, time))
    ensures var t := Seconds(FromDos(date, time));
            StampsAt(z, z.instant(t)) == (date, time) <==> IsShown(z, t)
  {
    hide Seconds, IsLocal, FromDos, LocalOf, DosDate, DosTime, IsZone;
    var l := FromDos(date, time);
    var t := Seconds(l);
    DosRoundTrip(date, time);
    LocalOfSeconds(l);
    DosYear(date, time);
    NearMisses(z, l);
    var l' := LocalOf(Shown(z, z.instant(t)));
    if DosDate(l') == date && DosTime(l') == time { SameStamps(l, l'); }
  }

  /** The stamps of an instant, dated by the year. */
  lemma StampYear(z: Zone, u: int)
    ensures StampsAt(z, u).0 < 0x10000 <==> LocalOf(Shown(z, u)).year < 2108
  {
    hide IsLeap, Seconds, LocalOf;
  }

  /** What the stamps of an instant say is a local time; from 1980 on, that instant's to two seconds. */
  lemma StampsAreLocal(z: Zone, u: int)
    requires StampsAt(z, u).0 < 0x10000
    ensures var l, l' := LocalOf(Shown(z, u)), FromDos(StampsAt(z, u).0, StampsAt(z, u).1);
            && IsLocal(l') && l'.month == l.month && l'.day == l.day
            && (l.year >= 1980 ==> l' == l.(second := l.second / 2 * 2)) && (l.year < 1980 ==> l'.year == 1980)
  {
    StampYear(z, u);
    hide LocalOf, Seconds;
    var l := LocalOf(Shown(z, u));
    DateFields(if l.year < 1980 then 0 else l.year - 1980, l.month, l.day);
    TimeFields(l.hour, l.minute, l.second);
    assert DaysIn(l.year, l.month) <= DaysIn(1980, l.month);
  }

  lemma DateFields(year: int, month: int, day: int)
    requires 0 <= year < 128 && 0 <= month < 16 && 0 <= day < 32
    ensures var date := year * 512 + month * 32 + day;
            date / 512 % 128 == year && date / 32 % 16 == month && date % 32 == day
  {
    var date := year * 512 + month * 32 + day;
    assert date / 32 == year * 16 + month;
    assert date / 512 == year;
  }

  lemma TimeFields(hour: int, minute: int, second: int)
    requires 0 <= hour < 32 && 0 <= minute < 64 && 0 <= second < 64
    ensures var time := hour * 2048 + minute * 32 + second / 2;
            time / 2048 % 32 == hour && time / 32 % 64 == minute && time % 32 * 2 == second / 2 * 2
  {
    var time := hour * 2048 + minute * 32 + second / 2;
    assert time / 32 == hour * 64 + minute;
    assert time / 2048 == hour;
  }

  lemma Halves(t: int)
    ensures t / 2 * 2 == t - t % 2
  {
  }

  lemma OddSecond(u: int, offset: int)
    requires offset % 60 == 0 && (u + offset) % 2 == 1
    ensures u - 1 - (u - 1) % 60 == u - u % 60
  {
    assert offset == 60 * (offset / 60);
    assert u % 2 == 1;
    assert u == 60 * (u / 60) + u % 60;
    assert u % 60 != 0;
    Remainder60(u / 60, u % 60 - 1);
  }

  /** The even second below an instant is shown one second before it, if at all. */
  lemma EvenSecondIsShown(z: Zone, u: int)
    requires IsZone(z) && DosEra(u) && DosEra(u - 1)
    ensures IsShown(z, Shown(z, u) / 2 * 2)
  {
    hide DosEra, IsZone;
    SaneAt(z, u, 0);
    SaneAt(z, u - 1, 0);
    var t := Shown(z, u);
    Halves(t);
    if t % 2 == 1 {
      OddSecond(u, z.offset(u));
      assert z.offset(u - 1) == z.offset(u - 1 - (u - 1) % 60);
      assert z.offset(u) == z.offset(u - u % 60);
      assert Shown(z, u - 1) == t - 1;
    }
  }

  lemma EvenSecond(l: Local)
    requires IsLocal(l)
    ensures Seconds(l.(second := l.second / 2 * 2)) == Seconds(l) / 2 * 2
  {
    hide DaysBefore, DaysBeforeMonth, DaysIn;
    var k := 43200 * DayOf(l) + 1800 * l.hour + 30 * l.minute;
    Halves(l.second);
    Halves(2 * k + l.second);
  }

  /** A file stamped with the stamps of an instant has a date that fits again. */
  lemma StampsFitAgain(z: Zone, u: int)
    requires IsZone(z) && StampsAt(z, u).0 < 0x10000
    ensures var l := FromDos(StampsAt(z, u).0, StampsAt(z, u).1);
            IsLocal(l) && StampsAt(z, z.instant(Seconds(l))).0 < 0x10000
  {
    var l, l' := LocalOf(Shown(z, u)), FromDos(StampsAt(z, u).0, StampsAt(z, u).1);
    var t := Seconds(l');
    StampsAreLocal(z, u);
    StampYear(z, u);
    hide LocalOf, FromDos, StampsAt, IsZone, Seconds, IsShown, IsLocal, DosEra;
    if l.year >= 1980 {
      SaneAt(z, u, 0);
      DosYears(l, u);
      DosYears(l, u - 1);
      EvenSecondIsShown(z, u);
      EvenSecond(l);
      StampsComeBack(z, StampsAt(z, u).0, StampsAt(z, u).1);
    } else {
      NearMisses(z, l');
      SoonAfter1980(l', LocalOf(Shown(z, z.instant(t))));
      StampYear(z, z.instant(t));
    }
  }

  lemma SoonAfter1980(l: Local, l': Local)
    requires IsLocal(l) && IsLocal(l') && l.year == 1980 && Seconds(l') - Seconds(l) < 2 * DAY
    ensures l'.year < 2108
  {
    if l'.year >= 2108 {
      YearsGrow(1981, l'.year);
      YearBounds(l);
      YearBounds(l');
    }
    hide DaysBefore, DaysBeforeMonth, DaysIn;
  }

  /** Berlin around 31 March 2024, when the hour from 02:00 on was skipped. */
  const BERLIN: Zone := Zone(
    u => if u < 1711846800 then 3600 else 7200,
    t => if t < 1711854000 then t - 3600 else t - 7200)

  lemma OnTheMinute(u: int, change: int)
    requires change % 60 == 0
    ensures u - u % 60 < change <==> u < change
  {
  }

  lemma BerlinIsZone()
    ensures IsZone(BERLIN)
  {
    forall u
      ensures SaneOffset(BERLIN, u)
    {
      OnTheMinute(u, 1711846800);
    }
    forall t
      ensures SaneInstant(BERLIN, t)
    {
      assert t - BERLIN.instant(t) == 3600 || t - BERLIN.instant(t) == 7200;
    }
    hide SaneOffset, SaneInstant;
  }

  /** A local time by its days and seconds. */
  lemma SecondsBy(l: Local, days: int)
    requires IsLocal(l) && DayOf(l) == days
    ensures Seconds(l) == DAY * days + SecondOfDay(l) && LocalOf(Seconds(l)) == l
  {
    LocalOfSeconds(l);
  }

  lemma LastOfMarch(l: Local)
    requires l.year == 2024 && l.month == 3 && l.day == 31
    ensures DayOf(l) == 19813
  {
    assert DaysBeforeMonth(2024, 2) == 31;
    assert DaysBeforeMonth(2024, 3) == 60;
  }

  /** Half past two on that day was skipped: the stamps come back as half past three. */
  lemma SkippedTimeMoves()
    ensures var t := Seconds(FromDos(0x587F, 0x13C0));
            && IsLocal(FromDos(0x587F, 0x13C0)) && IsZone(BERLIN) && !IsShown(BERLIN, t)
            && StampsAt(BERLIN, BERLIN.instant(t)) == (0x587F, 0x1BC0)
  {
    hide Seconds, DayOf, LocalOf, IsShown, IsZone;
    BerlinIsZone();
    var two, three := Local(2024, 3, 31, 2, 30, 0), Local(2024, 3, 31, 3, 30, 0);
    LastOfMarch(two);
    LastOfMarch(three);
    SecondsBy(two, 19813);
    SecondsBy(three, 19813);
    assert Shown(BERLIN, BERLIN.instant(1711852200)) == 1711855800;
    StampsComeBack(BERLIN, 0x587F, 0x13C0);
  }
}
