/** The closed-form conversion between day counts and civil dates, against the
    Gregorian calendar counted day by day (month lengths and leap rule of
    RFC 3339, section 5.7 and Appendix C). Day 0 is 1970-01-01. */
module Calendar {

  datatype Date = Date(year: int, month: int, day: int)

  predicate LeapYear(year: int) {
    year % 4 == 0 && (year % 100 != 0 || year % 400 == 0)
  }

  function MonthLength(year: int, month: int): int {
    if month == 2 then (if LeapYear(year) then 29 else 28)
    else if month == 4 || month == 6 || month == 9 || month == 11 then 30
    else 31
  }

  predicate Valid(d: Date) {
    1 <= d.month <= 12 && 1 <= d.day <= MonthLength(d.year, d.month)
  }

  function NextDay(d: Date): Date {
    if d.day < MonthLength(d.year, d.month) then d.(day := d.day + 1)
    else if d.month < 12 then Date(d.year, d.month + 1, 1)
    else Date(d.year + 1, 1, 1)
  }

  function PreviousDay(d: Date): Date {
    if d.day > 1 then d.(day := d.day - 1)
    else if d.month > 1 then Date(d.year, d.month - 1, MonthLength(d.year, d.month - 1))
    else Date(d.year - 1, 12, 31)
  }

  /** The date `n` days after 1970-01-01, one day at a time. */
  ghost function CalendarDate(n: int): (d: Date)
    ensures Valid(d)
    decreases if n < 0 then -n else n
  {
    if n == 0 then Date(1970, 1, 1)
    else if n > 0 then NextDay(CalendarDate(n - 1))
    else PreviousDay(CalendarDate(n + 1))
  }

  /** Month and day from the day of a year that starts on 1 March. */
  function MonthDay(doy: int): (int, int) {
    var mp := (5 * doy + 2) / 153;
    (if mp < 10 then mp + 3 else mp - 9, doy - (153 * mp + 2) / 5 + 1)
  }

  function YearOfEra(doe: int): int {
    (doe - doe / 1_460 + doe / 36_524 - doe / 146_096) / 365
  }

  /** Days before year `yoe` of an era. */
  function YearStart(yoe: int): int {
    365 * yoe + yoe / 4 - yoe / 100
  }

  /** The date of day `doe` of era `era`; eras of 400 years start on 1 March. */
  function EraDate(era: int, doe: int): Date {
    var yoe := YearOfEra(doe);
    var (m, d) := MonthDay(doe - YearStart(yoe));
    var y := yoe + era * 400;
    Date(if m <= 2 then y + 1 else y, m, d)
  }

  function DaysToYmd(days: int): Date {
    var z := days + 719_468;
    EraDate(z / 146_097, z % 146_097)
  }

  /** The day of a year that starts on 1 March. */
  function DayOfYear(month: int, day: int): int {
    var mp := if month > 2 then month - 3 else month + 9;
    (153 * mp + 2) / 5 + day - 1
  }

  /** Days from 0000-03-01 to the first of March of year `y`. */
  function DaysBefore(y: int): int {
    y / 400 * 146_097 + YearStart(y % 400)
  }

  function YmdToDays(date: Date): int {
    var y := if date.month <= 2 then date.year - 1 else date.year;
    DaysBefore(y) + DayOfYear(date.month, date.day) - 719_468
  }

  /** The last day of the year from March `yoe` can be its 366th: 29 February. */
  predicate LongYear(yoe: int) {
    yoe % 4 == 3 && (yoe % 100 != 99 || yoe == 399)
  }

  /** A day of an era by its century, leap cycle, year and day of year. */
  lemma YearOfEraFrom(c: int, q: int, s: int, doy: int)
    requires 0 <= c < 4 && 0 <= q < 25 && 0 <= s < 4 && 0 <= doy <= 365
    requires doy == 365 ==> s == 3 && (q < 24 || c == 3)
    ensures var yoe, doe := 100 * c + 4 * q + s, 36_524 * c + 1_461 * q + 365 * s + doy;
            YearStart(yoe) + doy == doe && YearOfEra(doe) == yoe && 0 <= doe < 146_097
  {
    var yoe, doe := 100 * c + 4 * q + s, 36_524 * c + 1_461 * q + 365 * s + doy;
    assert yoe / 4 == 25 * c + q && yoe / 100 == c;
    var carry := if 24 * c + q + 365 * s + doy >= 1_460 then 1 else 0;
    assert doe / 1_460 == 25 * c + q + carry;
    assert doe / 36_524 - doe / 146_096 == c;
  }

  lemma YearDigits(yoe: int)
    requires 0 <= yoe < 400
    ensures yoe == 100 * (yoe / 100) + 4 * (yoe % 100 / 4) + yoe % 4
    ensures LongYear(yoe) ==> yoe % 4 == 3 && (yoe % 100 / 4 < 24 || yoe / 100 == 3)
  {
    By4(yoe % 100, 25 * (yoe / 100));
  }

  /** The same, by year of era. */
  lemma YearOfEraInverts(yoe: int, doy: int)
    requires 0 <= yoe < 400 && 0 <= doy <= if LongYear(yoe) then 365 else 364
    ensures YearOfEra(YearStart(yoe) + doy) == yoe && 0 <= YearStart(yoe) + doy < 146_097
  {
    YearDigits(yoe);
    YearOfEraFrom(yoe / 100, yoe % 100 / 4, yoe % 4, doy);
  }

  /** Every day of an era falls in the year the closed form names. */
  lemma DayFallsInYear(doe: int)
    requires 0 <= doe < 146_097
    ensures var yoe := YearOfEra(doe); var doy := doe - YearStart(yoe);
            0 <= yoe < 400 && 0 <= doy <= if LongYear(yoe) then 365 else 364
  {
    var c := if doe / 36_524 < 3 then doe / 36_524 else 3;
    var r := doe - 36_524 * c;
    var q := r / 1_461;
    var r' := r - 1_461 * q;
    var s := if r' / 365 < 3 then r' / 365 else 3;
    YearOfEraFrom(c, q, s, r' - 365 * s);
  }

  /** Month and day of a March-based year, both ways. */
  lemma MonthDayInverts(doy: int)
    requires 0 <= doy <= 365
    ensures DayOfYear(MonthDay(doy).0, MonthDay(doy).1) == doy
    ensures 1 <= MonthDay(doy).0 <= 12 && 1 <= MonthDay(doy).1
    ensures MonthDay(doy).0 == 2 ==> MonthDay(doy).1 <= 28 || (doy == 365 && MonthDay(doy).1 == 29)
    ensures MonthDay(doy).0 != 2 ==> MonthDay(doy).1 <= MonthLength(0, MonthDay(doy).0)
  {
  }

  lemma DayOfYearInverts(month: int, day: int)
    requires 1 <= month <= 12 && 1 <= day <= if month == 2 then 29 else MonthLength(0, month)
    ensures 0 <= DayOfYear(month, day) <= 365 && (DayOfYear(month, day) == 365 <==> month == 2 && day == 29)
    ensures MonthDay(DayOfYear(month, day)) == (month, day)
  {
  }

  /** The March-based year `400 * era + yoe` is long exactly when the next calendar year is leap. */
  lemma LongYearIsLeap(y: int)
    ensures LongYear(y % 400) <==> LeapYear(y + 1)
  {
    WholeEras(y % 400 + 1, y / 400);
    assert y + 1 == y % 400 + 1 + 400 * (y / 400);
  }

  lemma WholeEras(x: int, era: int)
    ensures (x + 400 * era) % 4 == x % 4 && (x + 400 * era) % 100 == x % 100 && (x + 400 * era) % 400 == x % 400
  {
    By4(x, 100 * era);
    By100(x, 4 * era);
    By400(x, era);
  }

  lemma By4(x: int, k: int)
    ensures (x + 4 * k) % 4 == x % 4
  {
    var n := x + 4 * k;
    assert 4 * (x / 4 + k - n / 4) == n % 4 - x % 4;
  }

  lemma By100(x: int, k: int)
    ensures (x + 100 * k) % 100 == x % 100
  {
    var n := x + 100 * k;
    assert 100 * (x / 100 + k - n / 100) == n % 100 - x % 100;
  }

  lemma By400(x: int, k: int)
    ensures (x + 400 * k) % 400 == x % 400
  {
    var n := x + 400 * k;
    assert 400 * (x / 400 + k - n / 400) == n % 400 - x % 400;
  }

  /** A day of an era is a real date, counted back to itself. */
  lemma EraDateCounts(era: int, doe: int)
    requires 0 <= doe < 146_097
    ensures Valid(EraDate(era, doe)) && YmdToDays(EraDate(era, doe)) == era * 146_097 + doe - 719_468
  {
    var yoe := YearOfEra(doe);
    DayFallsInYear(doe);
    EraDateOfYear(era, yoe, doe);
  }

  lemma EraDateOfYear(era: int, yoe: int, doe: int)
    requires yoe == YearOfEra(doe) && 0 <= yoe < 400
    requires 0 <= doe - YearStart(yoe) <= if LongYear(yoe) then 365 else 364
    ensures Valid(EraDate(era, doe)) && YmdToDays(EraDate(era, doe)) == era * 146_097 + doe - 719_468
  {
    MonthDayInverts(doe - YearStart(yoe));
    YearOfEraSplits(era, yoe);
    LongYearIsLeap(yoe + era * 400);
  }

  /** The day of an era a date of its year `yoe` falls on is that date. */
  lemma EraDateFrom(era: int, yoe: int, month: int, day: int)
    requires 0 <= yoe < 400 && 1 <= month <= 12
    requires 1 <= day <= if month == 2 then (if LongYear(yoe) then 29 else 28) else MonthLength(0, month)
    ensures var doe := YearStart(yoe) + DayOfYear(month, day);
            0 <= doe < 146_097 && EraDate(era, doe) == Date(yoe + 400 * era + (if month <= 2 then 1 else 0), month, day)
  {
    DayOfYearInverts(month, day);
    YearOfEraInverts(yoe, DayOfYear(month, day));
  }

  /** Every day count converts to a real date and back to itself. */
  lemma DaysRoundTrip(n: int)
    ensures Valid(DaysToYmd(n)) && YmdToDays(DaysToYmd(n)) == n
  {
    EraDateCounts((n + 719_468) / 146_097, (n + 719_468) % 146_097);
  }

  /** Every real date converts to a day count and back to itself. */
  lemma DateRoundTrip(d: Date)
    requires Valid(d)
    ensures DaysToYmd(YmdToDays(d)) == d
  {
    var y := if d.month <= 2 then d.year - 1 else d.year;
    LongYearIsLeap(y);
    EraDateFrom(y / 400, y % 400, d.month, d.day);
    EraSplits(y / 400, YearStart(y % 400) + DayOfYear(d.month, d.day));
  }

  lemma EraSplits(era: int, doe: int)
    requires 0 <= doe < 146_097
    ensures (era * 146_097 + doe) / 146_097 == era && (era * 146_097 + doe) % 146_097 == doe
  {
  }

  /** March-based years are 365 or 366 days long, across era boundaries too. */
  lemma YearLength(y: int)
    ensures DaysBefore(y + 1) == DaysBefore(y) + if LeapYear(y + 1) then 366 else 365
  {
    LongYearIsLeap(y);
    var era, yoe := y / 400, y % 400;
    YearStartStep(yoe);
    if yoe < 399 {
      YearOfEraSplits(era, yoe + 1);
    } else {
      YearOfEraSplits(era + 1, 0);
    }
  }

  lemma YearStartStep(yoe: int)
    requires 0 <= yoe < 400
    ensures (if yoe < 399 then YearStart(yoe + 1) else 146_097) == YearStart(yoe) + if LongYear(yoe) then 366 else 365
  {
  }

  lemma YearOfEraSplits(era: int, yoe: int)
    requires 0 <= yoe < 400
    ensures (400 * era + yoe) / 400 == era && (400 * era + yoe) % 400 == yoe
  {
  }

  /** The next calendar day is the next day count. */
  lemma NextDayCountsOne(d: Date)
    requires Valid(d)
    ensures Valid(NextDay(d)) && YmdToDays(NextDay(d)) == YmdToDays(d) + 1
  {
    if d.month == 2 && d.day == MonthLength(d.year, 2) {
      YearLength(d.year - 1);
    }
  }

  lemma PreviousThenNext(d: Date)
    requires Valid(d)
    ensures Valid(PreviousDay(d)) && NextDay(PreviousDay(d)) == d
  {
  }

  ghost predicate Counts(d: Date, n: int) {
    Valid(d) && YmdToDays(d) == n && DaysToYmd(n) == d
  }

  lemma OneDayLater(d: Date, n: int)
    requires Counts(d, n)
    ensures Counts(NextDay(d), n + 1)
  {
    NextDayCountsOne(d);
    DateRoundTrip(NextDay(d));
  }

  lemma OneDayEarlier(d: Date, n: int)
    requires Counts(d, n)
    ensures Counts(PreviousDay(d), n - 1)
  {
    PreviousThenNext(d);
    NextDayCountsOne(PreviousDay(d));
    DateRoundTrip(PreviousDay(d));
  }

  lemma EpochCounts()
    ensures Counts(Date(1970, 1, 1), 0)
  {
    assert YmdToDays(Date(1970, 1, 1)) == 0;
    DateRoundTrip(Date(1970, 1, 1));
  }

  /** For every integer day count the closed form gives the date the
      day-by-day calendar reaches, and the other closed form takes it back. */
  lemma {:induction false} ClosedFormIsTheCalendar(n: int)
    ensures Counts(CalendarDate(n), n)
    decreases if n < 0 then -n else n
  {
    if n == 0 {
      EpochCounts();
    } else if n > 0 {
      ClosedFormIsTheCalendar(n - 1);
      OneDayLater(CalendarDate(n - 1), n - 1);
    } else {
      ClosedFormIsTheCalendar(n + 1);
      OneDayEarlier(CalendarDate(n + 1), n + 1);
    }
  }
}
