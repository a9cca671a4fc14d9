/** Formatting a Unix timestamp as a UTC calendar date and time (crates/tachi-bootstrap/build.rs). */
module CivilDate {
  import opened Prelude

  // ----- The calendar -----

  datatype Date = Date(year: int, month: int, day: int)

  predicate IsLeap(year: int) { year % 4 == 0 && (year % 100 != 0 || year % 400 == 0) }

  function DaysInMonth(year: int, month: int): int {
    if month == 2 then (if IsLeap(year) then 29 else 28) else if month in {4, 6, 9, 11} then 30 else 31
  }

  predicate ValidDate(d: Date) { 1 <= d.month <= 12 && 1 <= d.day <= DaysInMonth(d.year, d.month) }

  /** The day after, by the rules of the calendar. */
  function NextDate(d: Date): Date {
    if d.day < DaysInMonth(d.year, d.month) then Date(d.year, d.month, d.day + 1)
    else if d.month < 12 then Date(d.year, d.month + 1, 1)
    else Date(d.year + 1, 1, 1)
  }

  predicate Earlier(a: Date, b: Date) {
    a.year < b.year || (a.year == b.year && (a.month < b.month || (a.month == b.month && a.day < b.day)))
  }

  // ----- The algorithm -----

  const SECONDS_PER_DAY: int := 86_400
  const EPOCH_SHIFT: int := 719_468
  const DAYS_PER_ERA: int := 146_097

  /** Every intermediate value, named as in Hinnant's algorithm. */
  datatype Parts = Parts(z: int, era: int, doe: int, yoe: int, doy: int, mp: int, date: Date)

  function YearOfEra(doe: int): int { (doe - doe / 1460 + doe / 36_524 - doe / 146_096) / 365 }

  function CivilParts(days: int): Parts {
    var z := days + EPOCH_SHIFT;
    var era := z / DAYS_PER_ERA;
    var doe := z % DAYS_PER_ERA;
    var yoe := YearOfEra(doe);
    var doy := doe - (365 * yoe + yoe / 4 - yoe / 100);
    var mp := (5 * doy + 2) / 153;
    var day := doy - (153 * mp + 2) / 5 + 1;
    var month := if mp < 10 then mp + 3 else mp - 9;
    var year := yoe + era * 400 + if month <= 2 then 1 else 0;
    Parts(z, era, doe, yoe, doy, mp, Date(year, month, day))
  }

  function CivilFromDays(days: int): Date { CivilParts(days).date }

  /** The inverse day count: days since 1970-01-01. */
  function DaysFromCivil(d: Date): int {
    DaysBefore(MarchYear(d)) + MonthStart(MarchMonth(d)) + d.day - 1 - EPOCH_SHIFT
  }

  /** Years counted from March, so that the leap day comes last. */
  function MarchYear(d: Date): int { if d.month <= 2 then d.year - 1 else d.year }

  function MarchMonth(d: Date): int { if d.month <= 2 then d.month + 9 else d.month - 3 }

  function MonthStart(mp: int): int { (153 * mp + 2) / 5 }

  /** Days before a March year: one leap day every four years, but for centuries not divisible by four. */
  function DaysBefore(y: int): int { 365 * y + y / 4 - y / 100 + y / 400 }

  // ----- The year of the era -----

  predicate InYear(doe: int, y: int) { DaysBefore(y) <= doe < DaysBefore(y + 1) }

  /** A day of the era written in centuries, four-year cycles, years and days. */
  lemma YearOfEraSplit(c: int, q: int, k: int, d: int)
    requires 0 <= c <= 3 && 0 <= q <= 24 && 0 <= k <= 3 && 0 <= d
    requires d <= 364 || (d == 365 && k == 3 && (q < 24 || c == 3))
    ensures var doe := 36_524 * c + 1461 * q + 365 * k + d; YearOfEra(doe) == 100 * c + 4 * q + k
  {
    var doe := 36_524 * c + 1461 * q + 365 * k + d;
    var extra := 24 * c + q + 365 * k + d;
    assert doe == 1460 * (25 * c + q) + extra;
    var e := if extra >= 1460 then 1 else 0;
    assert doe / 1460 == 25 * c + q + e;
    var last := if doe == 146_096 then 1 else 0;
    assert doe / 36_524 == c + last && doe / 146_096 == last;
    assert doe - doe / 1460 + doe / 36_524 - doe / 146_096 == 365 * (100 * c + 4 * q + k) + (d - e);
    assert 0 <= d - e < 365;
  }

  lemma DaysBeforeSplit(c: int, q: int, k: int)
    requires 0 <= c <= 3 && 0 <= q <= 24 && 0 <= k <= 3
    ensures var y := 100 * c + 4 * q + k;
            && DaysBefore(y) == 36_524 * c + 1461 * q + 365 * k
            && DaysBefore(y + 1) - DaysBefore(y) == if k == 3 && (q < 24 || c == 3) then 366 else 365
  {
    var y := 100 * c + 4 * q + k;
    assert y / 4 == 25 * c + q && y / 100 == c && y / 400 == 0;
    assert (y + 1) / 4 == 25 * c + q + if k == 3 then 1 else 0;
    assert (y + 1) / 100 == c + if k == 3 && q == 24 then 1 else 0;
    assert (y + 1) / 400 == if k == 3 && q == 24 && c == 3 then 1 else 0;
  }

  /** Every day of an era in centuries, four-year cycles, years and days. */
  lemma EraDigits(doe: int) returns (c: int, q: int, k: int, d: int)
    requires 0 <= doe < DAYS_PER_ERA
    ensures 0 <= c <= 3 && 0 <= q <= 24 && 0 <= k <= 3 && 0 <= d
    ensures d <= 364 || (d == 365 && k == 3 && (q < 24 || c == 3))
    ensures doe == 36_524 * c + 1461 * q + 365 * k + d
  {
    c := if doe == 146_096 then 3 else doe / 36_524;
    var r := doe - 36_524 * c;
    assert 0 <= r <= 36_524 && (r == 36_524 ==> c == 3);
    q, k, d := CycleDigits(r);
  }

  lemma CycleDigits(r: int) returns (q: int, k: int, d: int)
    requires 0 <= r <= 36_524
    ensures 0 <= q <= 24 && 0 <= k <= 3 && 0 <= d && (d <= 364 || (d == 365 && k == 3 && (q < 24 || r == 36_524)))
    ensures r == 1461 * q + 365 * k + d
  {
    q := r / 1461;
    var s := r % 1461;
    k := if s == 1460 then 3 else s / 365;
    d := s - 365 * k;
  }

  /** The division formula finds the year of the era. */
  lemma YearOfEraFinds(doe: int)
    requires 0 <= doe < DAYS_PER_ERA
    ensures 0 <= YearOfEra(doe) < 400 && InYear(doe, YearOfEra(doe))
  {
    var c, q, k, d := EraDigits(doe);
    YearOfEraSplit(c, q, k, d);
    DaysBeforeSplit(c, q, k);
  }

  lemma {:induction false} DaysBeforeMonotone(a: int, b: int)
    requires a <= b
    ensures DaysBefore(b) - DaysBefore(a) >= 365 * (b - a)
    decreases b - a
  {
    if a < b {
      DaysBeforeMonotone(a, b - 1);
      YearLength(b - 1);
    }
  }

  lemma NextQuotient4(y: int)
    ensures (y + 1) / 4 - y / 4 == if (y + 1) % 4 == 0 then 1 else 0
  {
  }

  lemma NextQuotient100(y: int)
    ensures (y + 1) / 100 - y / 100 == if (y + 1) % 100 == 0 then 1 else 0
  {
  }

  lemma NextQuotient400(y: int)
    ensures (y + 1) / 400 - y / 400 == if (y + 1) % 400 == 0 then 1 else 0
  {
  }

  lemma MultipleOf400(y: int)
    requires y % 400 == 0
    ensures y % 100 == 0
  {
    var q := y / 400;
    assert y == 400 * q;
    assert y / 100 == 4 * q;
  }

  lemma MultipleOf100(y: int)
    requires y % 100 == 0
    ensures y % 4 == 0
  {
    var q := y / 100;
    assert y == 100 * q;
    assert y / 4 == 25 * q;
  }

  /** A March year has 366 days exactly when the February that ends it has 29. */
  lemma YearLength(y: int)
    ensures DaysBefore(y + 1) - DaysBefore(y) == if IsLeap(y + 1) then 366 else 365
  {
    NextQuotient4(y);
    NextQuotient100(y);
    NextQuotient400(y);
    if (y + 1) % 400 == 0 { MultipleOf400(y + 1); }
    if (y + 1) % 100 == 0 { MultipleOf100(y + 1); }
  }

  lemma YearUnique(day: int, a: int, b: int)
    requires InYear(day, a) && InYear(day, b)
    ensures a == b
  {
    if a < b { DaysBeforeMonotone(a + 1, b); }
    if b < a { DaysBeforeMonotone(b + 1, a); }
  }

  lemma SamePlace(day: int, a: int, i: int, b: int, j: int)
    requires DaysBefore(a) + i == day && DaysBefore(b) + j == day && InYear(day, a) && InYear(day, b)
    ensures a == b && i == j
  {
    YearUnique(day, a, b);
  }

  lemma ErasAlign(era: int, y: int)
    ensures DaysBefore(400 * era + y) == DAYS_PER_ERA * era + DaysBefore(y)
  {
    assert (400 * era + y) / 4 == 100 * era + y / 4;
    assert (400 * era + y) / 100 == 4 * era + y / 100;
    assert (400 * era + y) / 400 == era + y / 400;
  }

  // ----- The month of the year -----

  /** Month lengths from March on agree with the calendar; the last month is February. */
  lemma MonthLengths(mp: int, year: int)
    requires 0 <= mp <= 10
    ensures var month := if mp < 10 then mp + 3 else mp - 9;
            month != 2 && MonthStart(mp + 1) - MonthStart(mp) == DaysInMonth(year, month)
  {
  }

  lemma MonthOfDay(doy: int, mp: int)
    requires 0 <= doy <= 365
    ensures mp == (5 * doy + 2) / 153 ==>
            0 <= mp <= 11 && MonthStart(mp) <= doy && (mp < 11 ==> doy < MonthStart(mp + 1))
    ensures 0 <= mp <= 11 && MonthStart(mp) <= doy && (mp < 11 ==> doy < MonthStart(mp + 1)) ==>
            mp == (5 * doy + 2) / 153
  {
  }

  // ----- Main results -----

  /** The year of the era found, seen from the whole calendar. */
  lemma EraYear(era: int, doe: int, yoe: int)
    requires 0 <= doe < DAYS_PER_ERA && yoe == YearOfEra(doe)
    ensures 0 <= yoe < 400 && InYear(DAYS_PER_ERA * era + doe, 400 * era + yoe)
    ensures DaysBefore(400 * era + yoe) + (doe - (365 * yoe + yoe / 4 - yoe / 100)) == DAYS_PER_ERA * era + doe
  {
    YearOfEraFinds(doe);
    ErasAlign(era, yoe);
    ErasAlign(era, yoe + 1);
    assert yoe / 400 == 0;
  }

  lemma DayInYear(day: int, y: int, doy: int)
    requires InYear(day, y) && DaysBefore(y) + doy == day
    ensures 0 <= doy <= 365 && (doy == 365 ==> IsLeap(y + 1))
  {
    YearLength(y);
  }

  /** The March year and the day of that year, with the invariants the month step needs. */
  lemma YearStep(days: int)
    ensures var p := CivilParts(days);
            && 0 <= p.doe < DAYS_PER_ERA && 0 <= p.yoe < 400 && 0 <= p.doy <= 365 && 0 <= p.mp <= 11
            && DaysBefore(400 * p.era + p.yoe) + p.doy == p.z
            && InYear(p.z, 400 * p.era + p.yoe) && (p.doy == 365 ==> IsLeap(400 * p.era + p.yoe + 1))
  {
    var p := CivilParts(days);
    EraYear(p.era, p.doe, p.yoe);
    DayInYear(p.z, 400 * p.era + p.yoe, p.doy);
    MonthOfDay(p.doy, p.mp);
  }

  /** Every day number names a valid date of the proleptic Gregorian calendar. */
  lemma CivilIsValid(days: int)
    ensures ValidDate(CivilFromDays(days))
  {
    var p := CivilParts(days);
    YearStep(days);
    MonthOfDay(p.doy, p.mp);
    if p.mp <= 10 { MonthLengths(p.mp, p.date.year); }
  }

  /** The inverse day count returns the original day number. */
  lemma DaysRoundTrip(days: int)
    ensures DaysFromCivil(CivilFromDays(days)) == days
  {
    YearStep(days);
  }

  lemma DayOfYear(d: Date)
    requires ValidDate(d)
    ensures var (y, doy) := (MarchYear(d), MonthStart(MarchMonth(d)) + d.day - 1);
            0 <= doy <= 365 && InYear(DaysBefore(y) + doy, y) && (5 * doy + 2) / 153 == MarchMonth(d)
  {
    var (y, doy, mp) := (MarchYear(d), MonthStart(MarchMonth(d)) + d.day - 1, MarchMonth(d));
    YearLength(y);
    if mp <= 10 { MonthLengths(mp, d.year); }
    MonthOfDay(doy, mp);
  }

  /** The month step on its own: the date of a day of a March year. */
  function DateOf(y: int, doy: int): Date {
    var mp := (5 * doy + 2) / 153;
    var month := if mp < 10 then mp + 3 else mp - 9;
    Date(y + if month <= 2 then 1 else 0, month, doy - MonthStart(mp) + 1)
  }

  lemma CivilIsDateOf(days: int)
    ensures var p := CivilParts(days); CivilFromDays(days) == DateOf(400 * p.era + p.yoe, p.doy)
  {
  }

  lemma DateOfDayOfYear(d: Date)
    requires ValidDate(d)
    ensures DateOf(MarchYear(d), MonthStart(MarchMonth(d)) + d.day - 1) == d
  {
    DayOfYear(d);
  }

  /** The place of a day: its March year and the day of that year. */
  lemma CivilPlace(days: int) returns (y: int, doy: int)
    ensures InYear(days + EPOCH_SHIFT, y) && DaysBefore(y) + doy == days + EPOCH_SHIFT
    ensures CivilFromDays(days) == DateOf(y, doy)
  {
    var p := CivilParts(days);
    y, doy := 400 * p.era + p.yoe, p.doy;
    YearStep(days);
    CivilIsDateOf(days);
  }

  lemma DatePlace(d: Date, y: int, doy: int)
    requires ValidDate(d) && InYear(DaysFromCivil(d) + EPOCH_SHIFT, y)
    requires DaysBefore(y) + doy == DaysFromCivil(d) + EPOCH_SHIFT
    ensures y == MarchYear(d) && doy == MonthStart(MarchMonth(d)) + d.day - 1
  {
    DayOfYear(d);
    SamePlace(DaysFromCivil(d) + EPOCH_SHIFT, y, doy, MarchYear(d), MonthStart(MarchMonth(d)) + d.day - 1);
  }

  /** Every valid date comes back from its day number: the two conversions are inverse bijections. */
  lemma DateRoundTrip(d: Date)
    requires ValidDate(d)
    ensures CivilFromDays(DaysFromCivil(d)) == d
  {
    var y, doy := CivilPlace(DaysFromCivil(d));
    DatePlace(d, y, doy);
    DateOfDayOfYear(d);
  }

  lemma NextDateIsNext(d: Date)
    requires ValidDate(d)
    ensures ValidDate(NextDate(d)) && DaysFromCivil(NextDate(d)) == DaysFromCivil(d) + 1
  {
    var (mp, next) := (MarchMonth(d), NextDate(d));
    if mp <= 10 {
      MonthLengths(mp, d.year);
      assert MarchYear(next) == MarchYear(d);
    } else {
      YearLength(MarchYear(d));
      assert MonthStart(0) == 0 && MonthStart(11) == 337;
    }
  }

  lemma EpochDayNumber(d: Date)
    requires d == Date(1970, 1, 1)
    ensures ValidDate(d) && DaysFromCivil(d) == 0
  {
    assert MarchYear(d) == 1969 && MarchMonth(d) == 10;
  }

  /** Day zero is the first of January 1970. */
  lemma EpochDay(d: Date)
    ensures CivilFromDays(0) == d <==> d == Date(1970, 1, 1)
  {
    var first := Date(1970, 1, 1);
    EpochDayNumber(first);
    var zero := DaysFromCivil(first);
    DateRoundTrip(first);
    assert CivilFromDays(zero) == first;
  }

  /** Each day is followed by its calendar successor. */
  lemma ConsecutiveDays(days: int)
    ensures CivilFromDays(days + 1) == NextDate(CivilFromDays(days))
  {
    var d := CivilFromDays(days);
    CivilIsValid(days);
    DaysRoundTrip(days);
    NextDateIsNext(d);
    DateRoundTrip(NextDate(d));
  }

  lemma NextDateInjective(a: Date, b: Date)
    requires ValidDate(a) && ValidDate(b) && NextDate(a) == NextDate(b)
    ensures a == b
  {
    NextDateIsNext(a);
    NextDateIsNext(b);
    SameDaysSameDate(a, b, DaysFromCivil(a));
  }

  lemma SameDaysSameDate(a: Date, b: Date, days: int)
    requires ValidDate(a) && ValidDate(b) && days == DaysFromCivil(a) == DaysFromCivil(b)
    ensures a == b
  {
    DateRoundTrip(a);
    DateRoundTrip(b);
  }

  /** A numbering of days by valid dates in which each day is followed by its calendar successor. */
  ghost predicate IsCalendar(f: int -> Date) { forall days :: ValidDate(f(days)) && f(days + 1) == NextDate(f(days)) }

  /** There is only one calendar in which day zero is the first of January 1970, before the epoch and after it. */
  lemma {:induction false} OnlyCalendar(f: int -> Date, days: int)
    requires IsCalendar(f) && f(0) == Date(1970, 1, 1)
    ensures f(days) == CivilFromDays(days)
    decreases if days < 0 then -days else days
  {
    if days == 0 {
      EpochDay(f(0));
    } else if days > 0 {
      OnlyCalendar(f, days - 1);
      ConsecutiveDays(days - 1);
      CalendarStep(f, days - 1);
    } else {
      OnlyCalendar(f, days + 1);
      ConsecutiveDays(days);
      CalendarStep(f, days);
      CivilIsValid(days);
      NextDateInjective(f(days), CivilFromDays(days));
    }
  }

  lemma CalendarStep(f: int -> Date, days: int)
    requires IsCalendar(f)
    ensures ValidDate(f(days)) && f(days + 1) == NextDate(f(days))
  {
  }

  /** Day numbers and dates are in the same order. */
  lemma EarlierIffFewerDays(a: Date, b: Date)
    requires ValidDate(a) && ValidDate(b)
    ensures Earlier(a, b) <==> DaysFromCivil(a) < DaysFromCivil(b)
  {
    if Earlier(a, b) { EarlierHasFewerDays(a, b); }
    if Earlier(b, a) { EarlierHasFewerDays(b, a); }
  }

  lemma EarlierHasFewerDays(a: Date, b: Date)
    requires ValidDate(a) && ValidDate(b) && Earlier(a, b)
    ensures DaysFromCivil(a) < DaysFromCivil(b)
  {
    DayOfYear(a);
    DayOfYear(b);
    if MarchYear(a) < MarchYear(b) {
      EarlierYear(DaysFromCivil(a) + EPOCH_SHIFT, DaysFromCivil(b) + EPOCH_SHIFT, MarchYear(a), MarchYear(b));
    } else {
      EarlierMonth(a, b);
    }
  }

  lemma EarlierYear(x: int, y: int, a: int, b: int)
    requires InYear(x, a) && InYear(y, b) && a < b
    ensures x < y
  {
    DaysBeforeMonotone(a + 1, b);
  }

  lemma EarlierMonth(a: Date, b: Date)
    requires ValidDate(a) && ValidDate(b) && Earlier(a, b) && MarchYear(a) >= MarchYear(b)
    ensures MarchYear(a) == MarchYear(b) && MonthStart(MarchMonth(a)) + a.day < MonthStart(MarchMonth(b)) + b.day
  {
    if MarchMonth(a) < MarchMonth(b) {
      MonthLengths(MarchMonth(a), a.year);
      MonthStartsAscend(MarchMonth(a) + 1, MarchMonth(b));
    }
  }

  lemma MonthStartsAscend(a: int, b: int)
    requires a <= b
    ensures MonthStart(a) <= MonthStart(b)
  {
  }

  // ----- The formatted string -----

  /** Exactly `width` decimal digits, the leading ones cut off. */
  function Digits(n: nat, width: nat): (s: string)
    ensures |s| == width
  {
    if width == 0 then "" else Digits(n / 10, width - 1) + [('0' as int + n % 10) as char]
  }

  function DigitCount(n: nat): nat { if n < 10 then 1 else 1 + DigitCount(n / 10) }

  /** Zero-padded to a minimal width that includes the sign. */
  function Padded(n: int, width: nat): string {
    if n < 0 then "-" + Digits(-n, Max(DigitCount(-n), if width > 0 then width - 1 else 0))
    else Digits(n, Max(DigitCount(n), width))
  }

  function Max(a: nat, b: nat): nat { if a < b then b else a }

  /** A date and a time of day. */
  datatype Moment = Moment(date: Date, hour: int, minute: int, second: int)

  function MomentOf(epoch: int): Moment {
    var secs := epoch % SECONDS_PER_DAY;
    Moment(CivilFromDays(epoch / SECONDS_PER_DAY), secs / 3600, secs % 3600 / 60, secs % 60)
  }

  function Joined(y: string, mo: string, d: string, h: string, mi: string, sec: string): string {
    y + "-" + mo + "-" + d + "T" + h + ":" + mi + ":" + sec + "Z"
  }

  function Render(m: Moment): string {
    Joined(Padded(m.date.year, 4), Padded(m.date.month, 2), Padded(m.date.day, 2), Padded(m.hour, 2),
           Padded(m.minute, 2), Padded(m.second, 2))
  }

  function FormatUtc(epoch: int): string { Render(MomentOf(epoch)) }

  predicate ValidMoment(m: Moment) { ValidDate(m.date) && 0 <= m.hour < 24 && 0 <= m.minute < 60 && 0 <= m.second < 60 }

  function EpochOf(m: Moment): int {
    DaysFromCivil(m.date) * SECONDS_PER_DAY + m.hour * 3600 + m.minute * 60 + m.second
  }

  lemma TimeOfDay(secs: int)
    requires 0 <= secs < SECONDS_PER_DAY
    ensures 0 <= secs / 3600 < 24 && 0 <= secs % 3600 / 60 < 60 && 0 <= secs % 60 < 60
    ensures secs / 3600 * 3600 + secs % 3600 / 60 * 60 + secs % 60 == secs
  {
    var r := secs % 3600;
    assert secs == secs / 3600 * 3600 + r;
    assert r == r / 60 * 60 + r % 60;
    assert r % 60 == secs % 60;
  }

  /** Every timestamp is a valid moment that counts back to it. */
  lemma MomentRoundTrip(epoch: int)
    ensures ValidMoment(MomentOf(epoch)) && EpochOf(MomentOf(epoch)) == epoch
  {
    CivilIsValid(epoch / SECONDS_PER_DAY);
    DaysRoundTrip(epoch / SECONDS_PER_DAY);
    TimeOfDay(epoch % SECONDS_PER_DAY);
  }

  predicate Before(a: Moment, b: Moment) {
    Earlier(a.date, b.date) || (a.date == b.date &&
      (a.hour < b.hour || (a.hour == b.hour && (a.minute < b.minute || (a.minute == b.minute && a.second < b.second)))))
  }

  lemma BeforeHasSmallerEpoch(a: Moment, b: Moment)
    requires ValidMoment(a) && ValidMoment(b) && Before(a, b)
    ensures EpochOf(a) < EpochOf(b)
  {
    if Earlier(a.date, b.date) { EarlierHasFewerDays(a.date, b.date); }
  }

  lemma BeforeIffSmallerEpoch(a: Moment, b: Moment)
    requires ValidMoment(a) && ValidMoment(b)
    ensures Before(a, b) <==> EpochOf(a) < EpochOf(b)
  {
    if Before(a, b) { BeforeHasSmallerEpoch(a, b); }
    if Before(b, a) { BeforeHasSmallerEpoch(b, a); }
  }

  const I64_MIN: int := -0x8000_0000_0000_0000
  const I64_MAX: int := 0x7FFF_FFFF_FFFF_FFFF

  predicate FitsI64(n: int) { I64_MIN <= n <= I64_MAX }

  /** For every 64-bit timestamp every intermediate value fits in 64 bits. */
  lemma NoOverflow(epoch: int)
    requires FitsI64(epoch)
    ensures var p := CivilParts(epoch / SECONDS_PER_DAY);
            && FitsI64(epoch / SECONDS_PER_DAY) && FitsI64(p.z) && FitsI64(p.era * 400) && FitsI64(p.yoe + p.era * 400)
            && FitsI64(p.date.year) && FitsI64(365 * p.yoe + p.yoe / 4) && FitsI64(5 * p.doy + 2)
            && FitsI64(153 * p.mp + 2)
            && FitsI64(p.doe - p.doe / 1460 + p.doe / 36_524)
  {
    YearStep(epoch / SECONDS_PER_DAY);
  }

  // ----- Reading the string back -----

  predicate IsDigit(c: char) { '0' <= c <= '9' }

  predicate AllDigits(s: string) { forall i | 0 <= i < |s| :: IsDigit(s[i]) }

  /** The number a string of decimal digits denotes. */
  function ReadNat(s: string): nat
    requires AllDigits(s)
  {
    if s == "" then 0 else 10 * ReadNat(s[..|s| - 1]) + (s[|s| - 1] as int - '0' as int)
  }

  predicate Numeral(s: string) { AllDigits(if s != "" && s[0] == '-' then s[1..] else s) }

  /** The number a string of digits, with or without a sign, denotes. */
  function ReadInt(s: string): int
    requires Numeral(s)
  {
    if s != "" && s[0] == '-' then 0 - ReadNat(s[1..]) else ReadNat(s)
  }

  lemma {:induction false} DigitsRead(n: nat, width: nat)
    requires n < Power10(width)
    ensures AllDigits(Digits(n, width)) && ReadNat(Digits(n, width)) == n
  {
    if width > 0 {
      DigitsRead(n / 10, width - 1);
      var s := Digits(n, width);
      assert s[..width - 1] == Digits(n / 10, width - 1);
    }
  }

  lemma {:induction false} EnoughDigits(n: nat, width: nat)
    requires DigitCount(n) <= width
    ensures n < Power10(width)
  {
    if n >= 10 { EnoughDigits(n / 10, width - 1); } else { PowersAscend(1, width); }
  }

  lemma {:induction false} PowersAscend(a: nat, b: nat)
    requires a <= b
    ensures Power10(a) <= Power10(b)
  {
    if a < b { PowersAscend(a, b - 1); }
  }

  lemma {:induction false} FirstDigit(n: nat)
    requires n > 0
    ensures Digits(n, DigitCount(n))[0] != '0'
  {
    if n >= 10 {
      FirstDigit(n / 10);
      assert Digits(n, DigitCount(n))[0] == Digits(n / 10, DigitCount(n / 10))[0];
    }
  }

  /** A padded number reads back, has the minimal width, and is padded only up to that width. */
  lemma PaddedReads(n: int, width: nat)
    requires 0 < width
    ensures var s := Padded(n, width);
            && Numeral(s) && ReadInt(s) == n && |s| >= width
            && (|s| > width ==> s[0] != '0' && (s[0] == '-' ==> n < 0 && s[1] != '0'))
  {
    var size := if n < 0 then -n else n;
    var digits := Max(DigitCount(size), if n >= 0 then width else width - 1);
    EnoughDigits(size, digits);
    DigitsRead(size, digits);
    if n != 0 { FirstDigit(size); }
  }

  lemma TwoDigits(n: nat)
    requires n < 100
    ensures TwoDigitNumeral(Padded(n, 2)) && ReadTwo(Padded(n, 2)) == n
  {
    assert Power10(2) == 100;
    DigitCountBound(n, 2);
    assert Digits(n / 10 / 10, 0) == "";
    assert Digits(n / 10, 1) == [('0' as int + n / 10 % 10) as char];
    assert Digits(n, 2) == [('0' as int + n / 10 % 10) as char, ('0' as int + n % 10) as char];
  }

  const TAIL: nat := 16

  predicate TwoDigitNumeral(s: string) { |s| == 2 && IsDigit(s[0]) && IsDigit(s[1]) }

  /** The number two decimal digits denote. */
  function ReadTwo(s: string): nat
    requires TwoDigitNumeral(s)
  {
    10 * (s[0] as int - '0' as int) + (s[1] as int - '0' as int)
  }

  /** A year of any width, and month, day and time of two digits each. */
  predicate Numerals(y: string, mo: string, d: string, h: string, mi: string, sec: string) {
    && Numeral(y) && TwoDigitNumeral(mo) && TwoDigitNumeral(d) && TwoDigitNumeral(h) && TwoDigitNumeral(mi)
    && TwoDigitNumeral(sec)
  }

  function ReadFields(y: string, mo: string, d: string, h: string, mi: string, sec: string): Moment
    requires Numerals(y, mo, d, h, mi, sec)
  {
    Moment(Date(ReadInt(y), ReadTwo(mo), ReadTwo(d)), ReadTwo(h), ReadTwo(mi), ReadTwo(sec))
  }

  /** Such fields with their separators between them. */
  predicate Timestamp(s: string) {
    && |s| >= TAIL + 4
    && var n := |s| - TAIL;
       && Numerals(s[..n], s[n + 1..n + 3], s[n + 4..n + 6], s[n + 7..n + 9], s[n + 10..n + 12], s[n + 13..n + 15])
       && s[n] == '-' && s[n + 3] == '-' && s[n + 6] == 'T' && s[n + 9] == ':' && s[n + 12] == ':' && s[n + 15] == 'Z'
  }

  function ReadMoment(s: string): Moment
    requires Timestamp(s)
  {
    var n := |s| - TAIL;
    ReadFields(s[..n], s[n + 1..n + 3], s[n + 4..n + 6], s[n + 7..n + 9], s[n + 10..n + 12], s[n + 13..n + 15])
  }

  /** `s` consists of these fields with their separators between them. */
  ghost predicate FieldsAre(s: string, y: string, mo: string, d: string, h: string, mi: string, sec: string) {
    var n := |y|;
    && |s| == n + TAIL && s[..n] == y && s[n] == '-' && s[n + 1..n + 3] == mo && s[n + 3] == '-'
    && s[n + 4..n + 6] == d && s[n + 6] == 'T' && s[n + 7..n + 9] == h && s[n + 9] == ':'
    && s[n + 10..n + 12] == mi && s[n + 12] == ':' && s[n + 13..n + 15] == sec && s[n + 15] == 'Z'
  }

  lemma Fields(y: string, mo: string, d: string, h: string, mi: string, sec: string)
    ensures |mo| == |d| == |h| == |mi| == |sec| == 2 ==>
            FieldsAre(Joined(y, mo, d, h, mi, sec), y, mo, d, h, mi, sec)
  {
  }

  lemma FieldsRead(s: string, y: string, mo: string, d: string, h: string, mi: string, sec: string)
    requires |y| >= 4 && Numerals(y, mo, d, h, mi, sec)
    ensures FieldsAre(s, y, mo, d, h, mi, sec) ==> Timestamp(s) && ReadMoment(s) == ReadFields(y, mo, d, h, mi, sec)
  {
  }

  lemma JoinedReads(y: string, mo: string, d: string, h: string, mi: string, sec: string)
    requires |y| >= 4 && Numerals(y, mo, d, h, mi, sec)
    ensures var s := Joined(y, mo, d, h, mi, sec); Timestamp(s) && ReadMoment(s) == ReadFields(y, mo, d, h, mi, sec)
  {
    Fields(y, mo, d, h, mi, sec);
    FieldsRead(Joined(y, mo, d, h, mi, sec), y, mo, d, h, mi, sec);
  }

  lemma RenderReads(m: Moment)
    requires ValidMoment(m)
    ensures Timestamp(Render(m)) && ReadMoment(Render(m)) == m
  {
    PaddedReads(m.date.year, 4);
    TwoDigits(m.date.month);
    TwoDigits(m.date.day);
    TwoDigits(m.hour);
    TwoDigits(m.minute);
    TwoDigits(m.second);
    JoinedReads(Padded(m.date.year, 4), Padded(m.date.month, 2), Padded(m.date.day, 2), Padded(m.hour, 2),
                Padded(m.minute, 2), Padded(m.second, 2));
  }

  /** Every timestamp, of any year, is printed as a date and a time that read back to it. */
  lemma FormatReadsBack(epoch: int)
    ensures Timestamp(FormatUtc(epoch)) && ReadMoment(FormatUtc(epoch)) == MomentOf(epoch)
    ensures EpochOf(ReadMoment(FormatUtc(epoch))) == epoch
  {
    MomentRoundTrip(epoch);
    RenderReads(MomentOf(epoch));
  }

  /**
   The year of any valid moment: four digits for the years 0000 to 9999, so twenty characters in all; any other year is
   as wide as it needs to be.
   */
  lemma YearField(m: Moment)
    requires ValidMoment(m)
    ensures |Render(m)| >= TAIL && YearIs(Render(m), |Render(m)| - TAIL, m.date.year)
  {
    TwoDigits(m.date.month);
    TwoDigits(m.date.day);
    TwoDigits(m.hour);
    TwoDigits(m.minute);
    TwoDigits(m.second);
    YearWidth(m.date.year);
    YearOfJoined(Padded(m.date.year, 4), Padded(m.date.month, 2), Padded(m.date.day, 2), Padded(m.hour, 2),
                 Padded(m.minute, 2), Padded(m.second, 2), m.date.year);
  }

  lemma YearOfJoined(y: string, mo: string, d: string, h: string, mi: string, sec: string, year: int)
    requires YearIs(y, |y|, year) && |mo| == |d| == |h| == |mi| == |sec| == 2
    ensures var s := Joined(y, mo, d, h, mi, sec); |s| == |y| + TAIL && YearIs(s, |y|, year)
  {
    Fields(y, mo, d, h, mi, sec);
    YearPrefix(Joined(y, mo, d, h, mi, sec), y, year);
  }

  /** The first `n` characters of `s` are the year, as wide as it needs to be and at least four. */
  predicate YearIs(s: string, n: nat, year: int) {
    && 4 <= n <= |s|
    && (0 <= year <= 9999 ==> n == 4 && AllDigits(s[..n]))
    && (year > 9999 ==> n > 4 && AllDigits(s[..n]) && s[0] != '0')
    && (year < 0 ==> s[0] == '-' && AllDigits(s[1..n]) && (n > 4 ==> s[1] != '0'))
  }

  lemma YearPrefix(s: string, y: string, year: int)
    ensures YearIs(y, |y|, year) && |y| <= |s| && s[..|y|] == y ==> YearIs(s, |y|, year)
  {
    if 4 <= |y| <= |s| && s[..|y|] == y {
      assert s[..|y|][1..] == s[1..|y|] && s[..|y|][0] == s[0] && s[..|y|][1] == s[1] && y[1..|y|] == y[1..];
    }
  }

  lemma YearWidth(year: int)
    ensures var y := Padded(year, 4); YearIs(y, |y|, year)
  {
    if year < 0 { NegativeYear(year); } else if year <= 9999 { ShortYear(year); } else { LongYear(year); }
  }

  lemma ShortYear(year: nat)
    requires year <= 9999
    ensures YearIs(Padded(year, 4), 4, year) && |Padded(year, 4)| == 4
  {
    assert Power10(4) == 10000;
    DigitCountBound(year, 4);
    DigitsRead(year, 4);
  }

  lemma LongYear(year: nat)
    requires year > 9999
    ensures var y := Padded(year, 4); YearIs(y, |y|, year)
  {
    var digits := DigitCount(year);
    EnoughDigits(year, digits);
    assert Power10(4) == 10000;
    if digits <= 4 { PowersAscend(digits, 4); }
    DigitsRead(year, digits);
    FirstDigit(year);
  }

  lemma NegativeYear(year: int)
    requires year < 0
    ensures var y := Padded(year, 4); YearIs(y, |y|, year)
  {
    var t := PaddedDigits(-year);
    SignedYear("-" + t, t, year);
  }

  lemma PaddedDigits(n: nat) returns (t: string)
    requires n > 0
    ensures t == Digits(n, Max(DigitCount(n), 3)) && AllDigits(t) && |t| >= 3 && (|t| > 3 ==> t[0] != '0')
  {
    var digits := Max(DigitCount(n), 3);
    EnoughDigits(n, digits);
    DigitsRead(n, digits);
    FirstDigit(n);
    t := Digits(n, digits);
  }

  lemma SignedYear(y: string, t: string, year: int)
    requires year < 0 && y == "-" + t && AllDigits(t) && |t| >= 3 && (|t| > 3 ==> t[0] != '0')
    ensures YearIs(y, |y|, year)
  {
    assert y[1..|y|] == t && y[1] == t[0];
  }

  // ----- String order -----

  lemma {:induction false} LessConcat(a: string, b: string, s: string, t: string)
    requires |a| == |b|
    ensures Less(a + s, b + t) <==> Less(a, b) || (a == b && Less(s, t))
  {
    if a == "" {
      assert a + s == s && b + t == t;
    } else {
      assert (a + s)[1..] == a[1..] + s && (b + t)[1..] == b[1..] + t;
      LessConcat(a[1..], b[1..], s, t);
      assert a == b <==> a[0] == b[0] && a[1..] == b[1..] by { assert a == [a[0]] + a[1..] && b == [b[0]] + b[1..]; }
    }
  }

  lemma LessSame(x: string, s: string, t: string)
    ensures Less(x + s, x + t) <==> Less(s, t)
  {
    LessConcat(x, x, s, t);
    LessTotal(x, x);
  }

  function Power10(width: nat): nat { if width == 0 then 1 else 10 * Power10(width - 1) }

  lemma {:induction false} DigitsInOrder(m: nat, n: nat, width: nat)
    requires m < Power10(width) && n < Power10(width)
    ensures Less(Digits(m, width), Digits(n, width)) <==> m < n
    ensures Digits(m, width) == Digits(n, width) <==> m == n
  {
    if width > 0 {
      DigitsInOrder(m / 10, n / 10, width - 1);
      var (a, b) := (Digits(m / 10, width - 1), Digits(n / 10, width - 1));
      var (s, t) := ([('0' as int + m % 10) as char], [('0' as int + n % 10) as char]);
      LessConcat(a, b, s, t);
      assert Less(s, t) <==> s[0] < t[0];
      assert a + s == b + t <==> a == b && s == t by {
        assert (a + s)[..width - 1] == a && (b + t)[..width - 1] == b && (a + s)[width - 1] == s[0]
            && (b + t)[width - 1] == t[0];
      }
    }
  }

  lemma {:induction false} DigitCountBound(n: nat, width: nat)
    requires 0 < width && n < Power10(width)
    ensures DigitCount(n) <= width
  {
    if n >= 10 { DigitCountBound(n / 10, width - 1); }
  }

  lemma PaddedInOrder(m: nat, n: nat, width: nat)
    requires 0 < width && m < Power10(width) && n < Power10(width)
    ensures |Padded(m, width)| == |Padded(n, width)| == width
    ensures Less(Padded(m, width), Padded(n, width)) <==> m < n
    ensures Padded(m, width) == Padded(n, width) <==> m == n
  {
    DigitCountBound(m, width);
    DigitCountBound(n, width);
    DigitsInOrder(m, n, width);
  }

  /** One numeric field followed by the rest of the string. */
  lemma FieldInOrder(m: nat, n: nat, width: nat, sep: string, s: string, t: string)
    requires 0 < width && m < Power10(width) && n < Power10(width)
    ensures Less(Padded(m, width) + (sep + s), Padded(n, width) + (sep + t)) <==> m < n || (m == n && Less(s, t))
  {
    PaddedInOrder(m, n, width);
    LessConcat(Padded(m, width), Padded(n, width), sep + s, sep + t);
    LessSame(sep, s, t);
  }

  function RenderTime(m: Moment): string {
    Padded(m.hour, 2) + (":" + (Padded(m.minute, 2) + (":" + (Padded(m.second, 2) + ("Z" + "")))))
  }

  function RenderDate(m: Moment): string {
    Padded(m.date.year, 4) + ("-" + (Padded(m.date.month, 2) + ("-" + (Padded(m.date.day, 2) + ("T" + RenderTime(m))))))
  }

  lemma RenderNested(m: Moment)
    ensures Render(m) == RenderDate(m)
  {
    var (y, mo, d, h, mi, s) :=
        (Padded(m.date.year, 4), Padded(m.date.month, 2), Padded(m.date.day, 2), Padded(m.hour, 2),
         Padded(m.minute, 2), Padded(m.second, 2));
    Regroup(y, "-", mo, "-", d, "T", h, ":", mi, ":", s, "Z");
  }

  lemma Regroup(a: string, b: string, c: string, d: string, e: string, f: string, g: string, h: string, i: string,
                j: string, k: string, l: string)
    ensures a + b + c + d + e + f + g + h + i + j + k + l ==
            a + (b + (c + (d + (e + (f + (g + (h + (i + (j + (k + (l + "")))))))))))
  {
    assert a + b + c + d + e + f == a + (b + (c + (d + (e + f))));
    var tail := g + (h + (i + (j + (k + (l + "")))));
    assert g + h + i + j + k + l == tail;
    var head := a + b + c + d + e + f;
    assert head + g + h + i + j + k + l == head + (g + h + i + j + k + l);
    assert head + tail == a + (b + (c + (d + (e + (f + tail)))));
  }

  predicate FourDigitYear(m: Moment) { 0 <= m.date.year <= 9999 }

  lemma TimeInOrder(a: Moment, b: Moment)
    requires ValidMoment(a) && ValidMoment(b)
    ensures Less(RenderTime(a), RenderTime(b)) <==>
            a.hour < b.hour
                || (a.hour == b.hour && (a.minute < b.minute || (a.minute == b.minute && a.second < b.second)))
  {
    assert Power10(2) == 100;
    FieldInOrder(a.second, b.second, 2, "Z", "", "");
    FieldInOrder(a.minute, b.minute, 2, ":", Padded(a.second, 2) + ("Z" + ""), Padded(b.second, 2) + ("Z" + ""));
    FieldInOrder(a.hour, b.hour, 2, ":", Padded(a.minute, 2) + (":" + (Padded(a.second, 2) + ("Z" + ""))),
                 Padded(b.minute, 2) + (":" + (Padded(b.second, 2) + ("Z" + ""))));
  }

  lemma DateInOrder(a: Moment, b: Moment)
    requires ValidMoment(a) && ValidMoment(b) && FourDigitYear(a) && FourDigitYear(b)
    ensures Less(RenderDate(a), RenderDate(b)) <==> Before(a, b)
  {
    assert Power10(2) == 100 && Power10(4) == 10000;
    TimeInOrder(a, b);
    var (da, db) := (Padded(a.date.day, 2) + ("T" + RenderTime(a)), Padded(b.date.day, 2) + ("T" + RenderTime(b)));
    FieldInOrder(a.date.day, b.date.day, 2, "T", RenderTime(a), RenderTime(b));
    FieldInOrder(a.date.month, b.date.month, 2, "-", da, db);
    FieldInOrder(a.date.year, b.date.year, 4, "-", Padded(a.date.month, 2) + ("-" + da),
                 Padded(b.date.month, 2) + ("-" + db));
  }

  /** For years 0000 to 9999 the strings are in the order of the timestamps. */
  lemma StringOrderIsTimeOrder(a: int, b: int)
    requires FourDigitYear(MomentOf(a)) && FourDigitYear(MomentOf(b))
    ensures Less(FormatUtc(a), FormatUtc(b)) <==> a < b
  {
    MomentRoundTrip(a);
    MomentRoundTrip(b);
    BeforeIffSmallerEpoch(MomentOf(a), MomentOf(b));
    RenderNested(MomentOf(a));
    RenderNested(MomentOf(b));
    DateInOrder(MomentOf(a), MomentOf(b));
  }
}
