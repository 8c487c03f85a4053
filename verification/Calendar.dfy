/** Civil dates and day numbers: the two directions of the calendar arithmetic, proved against
  * the leap-year and month-length table that the date parser uses. */
module Calendar {
  datatype Date = Date(year: int, month: int, day: int)

  predicate IsLeap(year: int) {
    year % 4 == 0 && (year % 100 != 0 || year % 400 == 0)
  }

  /** The parser's table; 0 for a month that does not exist. */
  function DaysInMonth(year: int, month: int): nat {
    match month
    case 1 | 3 | 5 | 7 | 8 | 10 | 12 => 31
    case 4 | 6 | 9 | 11 => 30
    case 2 => if IsLeap(year) then 29 else 28
    case _ => 0
  }

  predicate Real(date: Date) {
    1 <= date.day <= DaysInMonth(date.year, date.month)
  }

  const EPOCH := Date(1970, 1, 1)

  /** Days from 1970-01-01 to a date. */
  function DayNumber(date: Date): int {
    var year := if date.month <= 2 then date.year - 1 else date.year;
    var era := year / 400;
    var yearOfEra := year - era * 400;
    var dayOfYear := (153 * ((date.month + 9) % 12) + 2) / 5 + date.day - 1;
    var dayOfEra := yearOfEra * 365 + yearOfEra / 4 - yearOfEra / 100 + dayOfYear;
    era * 146_097 + dayOfEra - 719_468
  }

  /** The date that is a number of days from 1970-01-01. */
  function CivilFromDays(days: int): Date {
    var z := days + 719_468;
    var era := z / 146_097;
    CivilOfEra(era, z - era * 146_097)
  }

  /** The same within one 400-year era, from the day of that era. */
  function CivilOfEra(era: int, doe: int): Date {
    var yoe := (doe - doe / 1_460 + doe / 36_524 - doe / 146_096) / 365;
    var doy := doe - (365 * yoe + yoe / 4 - yoe / 100);
    var mp := (5 * doy + 2) / 153;
    var day := doy - (153 * mp + 2) / 5 + 1;
    var month := if mp < 10 then mp + 3 else mp - 9;
    Date(yoe + era * 400 + (if month <= 2 then 1 else 0), month, day)
  }

  // ---- counting days by the table ----

  /** The next calendar date. */
  function Next(date: Date): Date {
    if date.day < DaysInMonth(date.year, date.month) then date.(day := date.day + 1)
    else if date.month < 12 then Date(date.year, date.month + 1, 1)
    else Date(date.year + 1, 1, 1)
  }

  /** The calendar date before. */
  function Prev(date: Date): Date {
    if date.day > 1 then date.(day := date.day - 1)
    else if date.month > 1 then Date(date.year, date.month - 1, DaysInMonth(date.year, date.month - 1))
    else Date(date.year - 1, 12, 31)
  }

  /** The date `n` single steps from the epoch: forward, or back when `n` is negative. */
  function Counted(n: int): Date
    decreases if n < 0 then -n else n
  {
    if n == 0 then EPOCH
    else if n > 0 then Next(Counted(n - 1))
    else Prev(Counted(n + 1))
  }

  /** Year, then month, then day. */
  predicate Before(a: Date, b: Date) {
    a.year < b.year
    || (a.year == b.year && a.month < b.month)
    || (a.year == b.year && a.month == b.month && a.day < b.day)
  }

  // ---- division by hand ----

  /** A quotient and remainder that fit are the quotient and remainder. */
  lemma Quotient(x: int, k: int, m: int, r: int)
    requires 0 < k && x == k * m + r && 0 <= r < k
    ensures x / k == m && x % k == r
  {
    var d := x / k - m;
    assert x == k * (x / k) + x % k;
    assert k * d == r - x % k by { assert k * d == k * (x / k) - k * m; }
    assert -k < k * d < k;
    if d >= 1 {
      TimesAtLeast(k, d);
    } else if d <= -1 {
      TimesAtLeast(k, -d);
    }
  }

  lemma TimesAtLeast(k: int, d: int)
    requires 0 < k && 1 <= d
    ensures k <= k * d && k * -d == -(k * d)
  {
    assert k * d == k + k * (d - 1);
  }

  lemma ModShift(a: int, t: int, k: int)
    requires 0 < k
    ensures (a + k * t) % k == a % k
  {
    var q, r := a / k, a % k;
    assert a + k * t == k * (q + t) + r by { assert k * (q + t) == k * q + k * t; }
    Quotient(a + k * t, k, q + t, r);
  }

  // ---- years that begin in March ----

  function YearStart(yoe: int): int {
    yoe * 365 + yoe / 4 - yoe / 100
  }

  /** A year from March on has a leap day when the February at its end does. */
  function MarchYearLength(yoe: int): int {
    if IsLeap(yoe + 1) then 366 else 365
  }

  function MonthStart(mp: int): int {
    (153 * mp + 2) / 5
  }

  lemma YearStep(yoe: int)
    requires 0 <= yoe < 400
    ensures YearStart(yoe) + MarchYearLength(yoe) == if yoe == 399 then 146_097 else YearStart(yoe + 1)
    ensures 0 <= YearStart(yoe)
  {
    StepCrosses(yoe, 4);
    StepCrosses(yoe, 100);
    StepCrosses(yoe, 400);
  }

  /** A quotient goes up exactly when the next number is a multiple. */
  lemma StepCrosses(x: int, k: int)
    requires 0 <= x && 1 < k
    ensures (x + 1) / k == x / k + (if (x + 1) % k == 0 then 1 else 0)
  {
    var q, r := x / k, x % k;
    if r == k - 1 {
      assert x + 1 == k * (q + 1) by { assert k * (q + 1) == k * q + k; }
      Quotient(x + 1, k, q + 1, 0);
    } else {
      Quotient(x + 1, k, q, r + 1);
    }
  }

  /** The shortened division finds the March year a day of the era is in. */
  lemma YearOfDay(yoe: int, doy: int)
    requires 0 <= yoe < 400
    requires 0 <= doy < MarchYearLength(yoe)
    ensures var doe := YearStart(yoe) + doy;
            && 0 <= doe < 146_097
            && (doe - doe / 1_460 + doe / 36_524 - doe / 146_096) / 365 == yoe
  {
    var doe := YearStart(yoe) + doy;
    var c, q, r := yoe / 100, (yoe % 100) / 4, yoe % 4;
    YearInParts(yoe, c, q, r);
    LeapDayInParts(yoe, doy, c, q, r);
    ShortDivision(doe, c, q, r, doy);
  }

  /** The division in those parts: the three corrections cancel the leap days. */
  lemma ShortDivision(doe: int, c: int, q: int, r: int, doy: int)
    requires 0 <= c < 4 && 0 <= q < 25 && 0 <= r < 4 && 0 <= doy <= 365
    requires doe == 36_524 * c + 1_461 * q + 365 * r + doy
    requires doy == 365 ==> r == 3 && (q < 24 || c == 3)
    ensures 0 <= doe < 146_097
    ensures (doe - doe / 1_460 + doe / 36_524 - doe / 146_096) / 365 == 100 * c + 4 * q + r
  {
    var rest := 24 * c + q + 365 * r + doy;
    var extra := if rest < 1_460 then 0 else 1;
    var last := if doe == 146_096 then 1 else 0;
    Quotient(doe, 1_460, 25 * c + q + extra, rest - 1_460 * extra);
    Quotient(doe, 36_524, c + last, doe - 36_524 * (c + last));
    Quotient(doe, 146_096, last, doe - 146_096 * last);
    Quotient(doe - (25 * c + q + extra) + c, 365, 100 * c + 4 * q + r, doy - extra);
  }

  /** Centuries, four-year groups and single years of an era. */
  lemma YearInParts(yoe: int, c: int, q: int, r: int)
    requires 0 <= yoe < 400
    requires c == yoe / 100 && q == (yoe % 100) / 4 && r == yoe % 4
    ensures 0 <= c < 4 && 0 <= q < 25 && 0 <= r < 4
    ensures yoe == 100 * c + 4 * q + r
    ensures YearStart(yoe) == 36_524 * c + 1_461 * q + 365 * r
  {
    assert yoe / 4 == 25 * c + q;
  }

  /** The 366th day exists only where the four-year rule and its exceptions put it. */
  lemma LeapDayInParts(yoe: int, doy: int, c: int, q: int, r: int)
    requires 0 <= c < 4 && 0 <= q < 25 && 0 <= r < 4 && yoe == 100 * c + 4 * q + r
    requires 0 <= doy < MarchYearLength(yoe)
    ensures doy == 365 ==> r == 3 && (q < 24 || c == 3)
    ensures 0 <= 1_461 * q + 365 * r + doy <= 36_524
    ensures 1_461 * q + 365 * r + doy == 36_524 ==> c == 3
  {
    if doy == 365 {
      assert (yoe + 1) % 4 == 0;
      assert r == 3;
      if q == 24 {
        assert yoe + 1 == 100 * (c + 1);
        assert (yoe + 1) % 100 == 0;
      }
    }
  }

  lemma MonthOfDay(doy: int, mp: int)
    requires 0 <= mp < 12
    requires MonthStart(mp) <= doy < (if mp == 11 then 366 else MonthStart(mp + 1))
    ensures (5 * doy + 2) / 153 == mp
  {
  }

  /** The March year a day of the era falls in, found by walking the years. */
  function YearContaining(doe: int, from: int): (yoe: int)
    requires 0 <= from < 400 && YearStart(from) <= doe < 146_097
    ensures from <= yoe < 400
    ensures YearStart(yoe) <= doe < YearStart(yoe) + MarchYearLength(yoe)
    decreases 400 - from
  {
    YearStep(from);
    if from == 399 || doe < YearStart(from + 1) then from else YearContaining(doe, from + 1)
  }

  /** The month of a March year a day falls in, found by walking the months. */
  function MonthContaining(doy: int, from: int): (mp: int)
    requires 0 <= from < 12 && MonthStart(from) <= doy < 366
    ensures from <= mp < 12
    ensures MonthStart(mp) <= doy < (if mp == 11 then 366 else MonthStart(mp + 1))
    decreases 12 - from
  {
    if from == 11 || doy < MonthStart(from + 1) then from else MonthContaining(doy, from + 1)
  }

  /** The date in a given March year and month, by its day of that year. */
  function InMarchYear(era: int, yoe: int, mp: int, doy: int): Date {
    var month := if mp < 10 then mp + 3 else mp - 9;
    Date(yoe + era * 400 + (if month <= 2 then 1 else 0), month, doy - MonthStart(mp) + 1)
  }

  /** Its day number. */
  function MarchNumber(era: int, yoe: int, doy: int): int {
    era * 146_097 + (YearStart(yoe) + doy) - 719_468
  }

  predicate DayOfMonth(yoe: int, mp: int, doy: int) {
    && 0 <= yoe < 400 && 0 <= mp < 12 && 0 <= doy < MarchYearLength(yoe)
    && MonthStart(mp) <= doy < (if mp == 11 then 366 else MonthStart(mp + 1))
  }

  lemma LeapByEra(era: int, year: int)
    ensures IsLeap(year + era * 400) == IsLeap(year)
  {
    ModShift(year, era, 400);
    ModShift(year, 4 * era, 100);
    ModShift(year, 100 * era, 4);
  }

  /** Months from March on start where the table says. */
  lemma MonthsFollow(year: int, month: int)
    requires 1 <= month <= 12
    ensures var mp := (month + 9) % 12;
            && 0 <= mp < 12 && 0 <= MonthStart(mp)
            && (month != 2 ==> MonthStart(mp) + DaysInMonth(year, month) == MonthStart(mp + 1) && mp < 11)
            && (month == 2 ==> mp == 11 && MonthStart(mp) == 337)
            && (mp < 11 ==> MonthStart(mp + 1) <= 337)
  {
    match month
    case 1 =>
    case 2 =>
    case 3 =>
    case 4 =>
    case 5 =>
    case 6 =>
    case 7 =>
    case 8 =>
    case 9 =>
    case 10 =>
    case 11 =>
    case 12 =>
  }

  /** A real date lies inside its March year. */
  lemma DayOfMarchYear(date: Date)
    requires Real(date)
    ensures var year := if date.month <= 2 then date.year - 1 else date.year;
            var mp := (date.month + 9) % 12;
            && 0 <= mp < 12
            && MonthStart(mp) <= MonthStart(mp) + date.day - 1 < MarchYearLength(year % 400)
            && (mp < 11 ==> MonthStart(mp) + date.day - 1 < MonthStart(mp + 1))
  {
    var year := if date.month <= 2 then date.year - 1 else date.year;
    MonthsFollow(date.year, date.month);
    LeapByEra(year / 400, year % 400 + 1);
    assert year % 400 + 1 + year / 400 * 400 == year + 1;
  }

  lemma InMarchYearIsReal(era: int, yoe: int, mp: int, doy: int)
    requires DayOfMonth(yoe, mp, doy)
    ensures Real(InMarchYear(era, yoe, mp, doy))
  {
    LeapByEra(era, yoe + 1);
  }

  lemma NumberInMarchYear(era: int, yoe: int, mp: int, doy: int)
    requires 0 <= yoe < 400 && 0 <= mp < 12
    ensures DayNumber(InMarchYear(era, yoe, mp, doy)) == MarchNumber(era, yoe, doy)
  {
    var date := InMarchYear(era, yoe, mp, doy);
    Quotient(yoe + era * 400, 400, era, yoe);
    assert (date.month + 9) % 12 == mp;
  }

  lemma CivilInMarchYear(era: int, yoe: int, mp: int, doy: int)
    requires DayOfMonth(yoe, mp, doy)
    ensures CivilFromDays(MarchNumber(era, yoe, doy)) == InMarchYear(era, yoe, mp, doy)
  {
    var doe := YearStart(yoe) + doy;
    CivilOfMarchYear(era, yoe, mp, doy);
    YearOfDay(yoe, doy);
    Quotient(MarchNumber(era, yoe, doy) + 719_468, 146_097, era, doe);
  }

  lemma CivilOfMarchYear(era: int, yoe: int, mp: int, doy: int)
    requires DayOfMonth(yoe, mp, doy)
    ensures CivilOfEra(era, YearStart(yoe) + doy) == InMarchYear(era, yoe, mp, doy)
  {
    YearOfDay(yoe, doy);
    MonthOfDay(doy, mp);
  }

  /** A real date, seen from the March its year begins in. */
  lemma RealInMarchYear(date: Date) returns (era: int, yoe: int, mp: int, doy: int)
    requires Real(date)
    ensures DayOfMonth(yoe, mp, doy)
    ensures date == InMarchYear(era, yoe, mp, doy)
  {
    var year := if date.month <= 2 then date.year - 1 else date.year;
    era, yoe, mp := year / 400, year % 400, (date.month + 9) % 12;
    doy := MonthStart(mp) + date.day - 1;
    DayOfMarchYear(date);
  }

  // ---- main results ----

  /** Every day number, negative ones included, names a real date with that number. */
  lemma DaysToDateAndBack(days: int)
    ensures Real(CivilFromDays(days))
    ensures DayNumber(CivilFromDays(days)) == days
  {
    var z := days + 719_468;
    var era, doe := z / 146_097, z % 146_097;
    var yoe := YearContaining(doe, 0);
    var doy := doe - YearStart(yoe);
    var mp := MonthContaining(doy, 0);
    CivilInMarchYear(era, yoe, mp, doy);
    InMarchYearIsReal(era, yoe, mp, doy);
    NumberInMarchYear(era, yoe, mp, doy);
  }

  /** Every real date of any year comes back from its day number. */
  lemma DateToDaysAndBack(date: Date)
    requires Real(date)
    ensures CivilFromDays(DayNumber(date)) == date
  {
    var era, yoe, mp, doy := RealInMarchYear(date);
    NumberInMarchYear(era, yoe, mp, doy);
    CivilInMarchYear(era, yoe, mp, doy);
  }

  /** The next calendar date is real and has the next number. */
  lemma NextHasNextNumber(date: Date)
    requires Real(date)
    ensures Real(Next(date)) && DayNumber(Next(date)) == DayNumber(date) + 1
  {
    if date.day == DaysInMonth(date.year, date.month) {
      if date.month == 2 {
        FebruaryEnds(date);
      } else {
        MonthEnds(date);
      }
    }
  }

  /** Day numbers within a March year differ by days of that year. */
  lemma SameMarchYear(a: Date, b: Date)
    requires (if a.month <= 2 then a.year - 1 else a.year) == (if b.month <= 2 then b.year - 1 else b.year)
    ensures DayNumber(b) - DayNumber(a) ==
              MonthStart((b.month + 9) % 12) + b.day - MonthStart((a.month + 9) % 12) - a.day
  {
  }

  lemma MonthEnds(date: Date)
    requires Real(date) && date.month != 2 && date.day == DaysInMonth(date.year, date.month)
    ensures Real(Next(date)) && DayNumber(Next(date)) == DayNumber(date) + 1
  {
    MonthsFollow(date.year, date.month);
    var next := if date.month < 12 then Date(date.year, date.month + 1, 1) else Date(date.year + 1, 1, 1);
    assert Next(date) == next && 1 <= next.month <= 12;
    assert (next.month + 9) % 12 == (date.month + 9) % 12 + 1;
    SameMarchYear(date, next);
  }

  lemma FebruaryEnds(date: Date)
    requires Real(date) && date.month == 2 && date.day == DaysInMonth(date.year, 2)
    ensures Real(Next(date)) && DayNumber(Next(date)) == DayNumber(date) + 1
  {
    var era, yoe, mp, doy := RealInMarchYear(date);
    NumberInMarchYear(era, yoe, mp, doy);
    LeapByEra(era, yoe + 1);
    YearStep(yoe);
    if yoe == 399 {
      NumberInMarchYear(era + 1, 0, 0, 0);
      assert Next(date) == InMarchYear(era + 1, 0, 0, 0);
    } else {
      NumberInMarchYear(era, yoe + 1, 0, 0);
      assert Next(date) == InMarchYear(era, yoe + 1, 0, 0);
    }
  }

  /** The date before is real, leads back here, and has the number before. */
  lemma PrevHasPrevNumber(date: Date)
    requires Real(date)
    ensures Real(Prev(date)) && DayNumber(Prev(date)) == DayNumber(date) - 1
  {
    NextUndoesPrev(date);
    NextHasNextNumber(Prev(date));
  }

  lemma NextUndoesPrev(date: Date)
    requires Real(date)
    ensures Real(Prev(date)) && Next(Prev(date)) == date
  {
  }

  lemma {:induction false} CountedNumber(n: int)
    ensures Real(Counted(n)) && DayNumber(Counted(n)) == n
    decreases if n < 0 then -n else n
  {
    if n > 0 {
      CountedNumber(n - 1);
      NextHasNextNumber(Counted(n - 1));
    } else if n < 0 {
      CountedNumber(n + 1);
      PrevHasPrevNumber(Counted(n + 1));
    }
  }

  /** The day number is the count of single days from the epoch, both ways, and the
    * days-to-date arithmetic is that walk. */
  lemma DayNumberCountsDays(n: int)
    ensures Real(Counted(n)) && DayNumber(Counted(n)) == n
    ensures CivilFromDays(n) == Counted(n)
  {
    CountedNumber(n);
    DateToDaysAndBack(Counted(n));
  }

  /** The order of dates is the order of their numbers. */
  lemma NumbersKeepOrder(a: Date, b: Date)
    requires Real(a) && Real(b)
    ensures Before(a, b) <==> DayNumber(a) < DayNumber(b)
  {
    if Before(a, b) {
      EarlierHasSmallerNumber(a, b);
    } else if Before(b, a) {
      EarlierHasSmallerNumber(b, a);
    } else {
      assert a == b;
    }
  }

  /** By walking on from `a`, which stays at or before `b` until it is `b`. */
  lemma {:induction false} EarlierHasSmallerNumber(a: Date, b: Date)
    requires Real(a) && Real(b) && Before(a, b)
    ensures DayNumber(a) < DayNumber(b)
    decreases b.year - a.year, 12 - a.month, 31 - a.day
  {
    NextHasNextNumber(a);
    if Next(a) != b {
      EarlierHasSmallerNumber(Next(a), b);
    }
  }

  /** Years are split by the number of their first day. */
  lemma YearBefore(days: int, year: int)
    ensures CivilFromDays(days).year < year <==> days < DayNumber(Date(year, 1, 1))
  {
    DaysToDateAndBack(days);
    NumbersKeepOrder(CivilFromDays(days), Date(year, 1, 1));
  }

  lemma KnownFirstDays()
    ensures DayNumber(EPOCH) == 0
    ensures DayNumber(Date(10_000, 1, 1)) == 2_932_897
  {
    assert 1969 / 400 == 4 && 369 / 4 == 92 && 369 / 100 == 3;
    assert 9999 / 400 == 24 && 399 / 4 == 99 && 399 / 100 == 3;
  }
}
