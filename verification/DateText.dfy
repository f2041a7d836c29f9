/** Dates as the text keys of the activity log: `YYYY-MM-DD` written and read back. */
module DateText {
  import opened Common
  import opened Calendar

  const MAX_I64: nat := 0x7fff_ffff_ffff_ffff

  function DigitChar(d: nat): char
    requires d < 10
  {
    '0' + d as char
  }

  predicate IsDigit(c: char) {
    '0' <= c <= '9'
  }

  ghost predicate AllDigits(s: string) {
    s != "" && forall i | 0 <= i < |s| :: IsDigit(s[i])
  }

  /** Decimal, filled with zeros to at least `width` digits. */
  function Padded(n: nat, width: nat): (s: string)
    ensures AllDigits(s)
    decreases n, width
  {
    if n < 10 && width <= 1 then [DigitChar(n)]
    else Padded(n / 10, if width > 0 then width - 1 else 0) + [DigitChar(n % 10)]
  }

  /** A sign takes one of the four places of a year. */
  function FormatYear(y: int): string {
    if y >= 0 then Padded(y, 4) else "-" + Padded(-y, 3)
  }

  function FormatDate(d: Date): string
    requires d.month >= 0 && d.day >= 0
  {
    FormatYear(d.year) + "-" + Padded(d.month, 2) + "-" + Padded(d.day, 2)
  }

  function MonthDayText(d: Date): string
    requires d.month >= 0 && d.day >= 0
  {
    Padded(d.month, 2) + "-" + Padded(d.day, 2)
  }

  function DigitsValue(s: string): Option<nat> {
    if s == "" then Some(0)
    else
      var front, last := DigitsValue(s[..|s| - 1]), s[|s| - 1];
      if front.None? || !IsDigit(last) then None
      else Some(front.value * 10 + (last - '0') as nat)
  }

  /** A signed decimal that fits 64 bits. */
  function ParseInt(s: string): Option<int> {
    var negative := s != "" && s[0] == '-';
    var digits := if s != "" && (s[0] == '+' || s[0] == '-') then s[1..] else s;
    if digits == "" then None
    else match DigitsValue(digits)
      case None => None
      case Some(v) =>
        if negative then (if v <= MAX_I64 + 1 then Some(0 - v as int) else None)
        else if v <= MAX_I64 then Some(v) else None
  }

  function SplitDashes(s: string): (r: seq<string>)
    ensures r != []
  {
    if s == "" then [""]
    else
      var rest := SplitDashes(s[1..]);
      if s[0] == '-' then [""] + rest else [[s[0]] + rest[0]] + rest[1..]
  }

  /** Reads the first three fields; whatever follows a third dash is ignored. */
  function ParseDays(text: string): Option<int> {
    var parts := SplitDashes(text);
    if |parts| < 3 then None
    else
      var y, m, d := ParseInt(parts[0]), ParseInt(parts[1]), ParseInt(parts[2]);
      if y.None? || m.None? || d.None? then None
      else if !(1 <= m.value <= 12) || !(1 <= d.value <= 31) then None
      else Some(YmdToDays(Date(y.value, m.value, d.value)))
  }

  lemma {:induction false} PaddedReadsBack(n: nat, width: nat)
    ensures DigitsValue(Padded(n, width)) == Some(n)
    decreases n, width
  {
    var s := Padded(n, width);
    if n < 10 && width <= 1 {
      assert s[..0] == "";
    } else {
      var w := if width > 0 then width - 1 else 0;
      PaddedReadsBack(n / 10, w);
      assert s[..|s| - 1] == Padded(n / 10, w);
    }
  }

  lemma {:induction false} SplitAtDash(field: string, rest: string)
    requires forall i | 0 <= i < |field| :: field[i] != '-'
    ensures SplitDashes(field + "-" + rest) == [field] + SplitDashes(rest)
  {
    var s := field + "-" + rest;
    if field == "" {
      assert s[1..] == rest;
    } else {
      SplitAtDash(field[1..], rest);
      assert s[1..] == field[1..] + "-" + rest;
      assert [s[0]] + field[1..] == field;
    }
  }

  lemma {:induction false} SplitWithoutDash(field: string)
    requires forall i | 0 <= i < |field| :: field[i] != '-'
    ensures SplitDashes(field) == [field]
  {
    if field != "" {
      SplitWithoutDash(field[1..]);
      assert [field[0]] + field[1..] == field;
    }
  }

  lemma FieldsOf(year: string, month: string, day: string)
    requires AllDigits(year) && AllDigits(month) && AllDigits(day)
    ensures SplitDashes(year + "-" + month + "-" + day) == [year, month, day]
  {
    SplitWithoutDash(day);
    SplitAtDash(month, day);
    SplitAtDash(year, month + "-" + day);
    assert year + "-" + month + "-" + day == year + "-" + (month + "-" + day);
  }

  lemma NumberReadsBack(n: nat, width: nat)
    ensures ParseInt(Padded(n, width)) == if n <= MAX_I64 then Some(n) else None
  {
    PaddedReadsBack(n, width);
    assert IsDigit(Padded(n, width)[0]);
  }

  /** A year that is not negative is written so that the whole date reads back. */
  lemma DateReadsBack(d: Date)
    requires Valid(d) && 0 <= d.year <= MAX_I64
    ensures ParseDays(FormatDate(d)) == Some(YmdToDays(d))
  {
    FieldsOf(Padded(d.year, 4), Padded(d.month, 2), Padded(d.day, 2));
    NumberReadsBack(d.year, 4);
    NumberReadsBack(d.month, 2);
    NumberReadsBack(d.day, 2);
  }

  /** Day counts survive being written and read back exactly when their year is
      not negative (and fits): a year before 0000 is written with a leading
      sign, which the reader takes for a separator. */
  lemma TextRoundTrip(n: int)
    ensures ParseDays(FormatDate(DaysToYmd(n))) == Some(n) <==> 0 <= DaysToYmd(n).year <= MAX_I64
  {
    DaysRoundTrip(n);
    var d := DaysToYmd(n);
    if d.year < 0 {
      SignIsASeparator(d);
    } else if d.year <= MAX_I64 {
      DateReadsBack(d);
    } else {
      FarYearDoesNotFit(d);
    }
  }

  lemma SignIsASeparator(d: Date)
    requires Valid(d) && d.year < 0
    ensures ParseDays(FormatDate(d)) == None
  {
    var rest := Padded(-d.year, 3) + "-" + MonthDayText(d);
    SignThenRest(d);
    SplitAtDash("", rest);
    EmptyFirstField(FormatDate(d));
  }

  lemma SignThenRest(d: Date)
    requires Valid(d) && d.year < 0
    ensures FormatDate(d) == "" + "-" + (Padded(-d.year, 3) + "-" + MonthDayText(d))
  {
  }

  lemma EmptyFirstField(text: string)
    requires SplitDashes(text)[0] == ""
    ensures ParseDays(text) == None
  {
    assert ParseInt("") == None;
  }

  lemma FarYearDoesNotFit(d: Date)
    requires Valid(d) && d.year > MAX_I64
    ensures ParseDays(FormatDate(d)) == None
  {
    assert FormatDate(d) == Padded(d.year, 4) + "-" + MonthDayText(d);
    SplitAtDash(Padded(d.year, 4), MonthDayText(d));
    NumberReadsBack(d.year, 4);
  }

  /** The first day of the year before 0000 does not read back. */
  lemma NegativeYearIsLost()
    ensures DaysToYmd(-719_893) == Date(-1, 1, 1) && ParseDays(FormatDate(DaysToYmd(-719_893))) != Some(-719_893)
  {
    YearBeforeZero();
    TextRoundTrip(-719_893);
  }

  lemma YearBeforeZero()
    ensures DaysToYmd(-719_893) == Date(-1, 1, 1)
  {
    assert YmdToDays(Date(-1, 1, 1)) == -719_893;
    DateRoundTrip(Date(-1, 1, 1));
  }

  // ---------------------------------------------------------------------
  // Text order is day order
  // ---------------------------------------------------------------------

  /** Byte order, which is how the activity log's keys are sorted. */
  predicate TextLess(a: string, b: string) {
    b != "" && (a == "" || a[0] < b[0] || (a[0] == b[0] && TextLess(a[1..], b[1..])))
  }

  function Power10(w: nat): nat {
    if w == 0 then 1 else 10 * Power10(w - 1)
  }

  /** Numbers of one width compare as texts as they do as numbers, and ties go on to what follows. */
  lemma {:induction false} PaddedOrder(m: nat, n: nat, width: nat, s: string, t: string)
    requires width >= 1 && m < Power10(width) && n < Power10(width)
    ensures TextLess(Padded(m, width) + s, Padded(n, width) + t) <==> m < n || (m == n && TextLess(s, t))
    decreases width
  {
    if width == 1 {
      OneCharOrder(DigitChar(m), DigitChar(n), s, t);
    } else {
      PaddedOrder(m / 10, n / 10, width - 1, [DigitChar(m % 10)] + s, [DigitChar(n % 10)] + t);
      OneCharOrder(DigitChar(m % 10), DigitChar(n % 10), s, t);
      LastDigitFirst(m, width, s);
      LastDigitFirst(n, width, t);
    }
  }

  lemma LastDigitFirst(n: nat, width: nat, s: string)
    requires width > 1
    ensures Padded(n, width) + s == Padded(n / 10, width - 1) + ([DigitChar(n % 10)] + s)
  {
  }

  lemma OneCharOrder(c: char, d: char, s: string, t: string)
    ensures TextLess([c] + s, [d] + t) <==> c < d || (c == d && TextLess(s, t))
  {
    assert ([c] + s)[1..] == s && ([d] + t)[1..] == t;
  }

  predicate Earlier(a: Date, b: Date) {
    a.year < b.year || (a.year == b.year && (a.month < b.month || (a.month == b.month && a.day < b.day)))
  }

  lemma NextDayIsLater(d: Date)
    requires Valid(d)
    ensures Earlier(d, NextDay(d))
  {
  }

  lemma CalendarStep(n: int)
    ensures CalendarDate(n + 1) == NextDay(CalendarDate(n))
  {
    if n < 0 {
      PreviousThenNext(CalendarDate(n + 1));
    }
  }

  /** The date rises with the day count. */
  lemma {:induction false} LaterCountIsLaterDate(n: int, k: nat)
    requires k > 0
    ensures Earlier(CalendarDate(n), CalendarDate(n + k))
    decreases k
  {
    var before := CalendarDate(n + k - 1);
    CalendarStep(n + k - 1);
    NextDayIsLater(before);
    if k > 1 {
      LaterCountIsLaterDate(n, k - 1);
    }
  }

  lemma CalendarOrder(m: int, n: int)
    ensures Earlier(CalendarDate(m), CalendarDate(n)) <==> m < n
  {
    if m < n {
      LaterCountIsLaterDate(m, n - m);
    } else if n < m {
      LaterCountIsLaterDate(n, m - n);
    }
  }

  lemma FieldOrder(m: nat, n: nat, width: nat, s: string, t: string)
    requires width >= 1 && m < Power10(width) && n < Power10(width)
    ensures TextLess(Padded(m, width) + "-" + s, Padded(n, width) + "-" + t) <==> m < n || (m == n && TextLess(s, t))
  {
    PaddedOrder(m, n, width, "-" + s, "-" + t);
    OneCharOrder('-', '-', s, t);
    assert Padded(m, width) + "-" + s == Padded(m, width) + ("-" + s);
    assert Padded(n, width) + "-" + t == Padded(n, width) + ("-" + t);
  }

  lemma MonthDayTextOrder(a: Date, b: Date)
    requires Valid(a) && Valid(b)
    ensures TextLess(MonthDayText(a), MonthDayText(b)) <==> a.month < b.month || (a.month == b.month && a.day < b.day)
  {
    var da, db := Padded(a.day, 2), Padded(b.day, 2);
    PaddedOrder(a.day, b.day, 2, "", "");
    assert da + "" == da && db + "" == db;
    FieldOrder(a.month, b.month, 2, da, db);
  }

  lemma YearThenRest(d: Date)
    requires Valid(d) && d.year >= 0
    ensures FormatDate(d) == Padded(d.year, 4) + "-" + MonthDayText(d)
  {
  }

  lemma FourDigits(n: int)
    ensures n <= 9999 <==> n < Power10(4)
  {
    assert Power10(4) == 10 * (10 * (10 * (10 * Power10(0))));
  }

  lemma DateTextOrder(a: Date, b: Date)
    requires Valid(a) && Valid(b) && 0 <= a.year <= 9999 && 0 <= b.year <= 9999
    ensures TextLess(FormatDate(a), FormatDate(b)) <==> Earlier(a, b)
  {
    MonthDayTextOrder(a, b);
    FourDigits(a.year);
    FourDigits(b.year);
    FieldOrder(a.year, b.year, 4, MonthDayText(a), MonthDayText(b));
    YearThenRest(a);
    YearThenRest(b);
  }

  /** For years 0 to 9999, keys sort in day order. */
  lemma KeysSortInDayOrder(m: int, n: int)
    requires 0 <= CalendarDate(m).year <= 9999 && 0 <= CalendarDate(n).year <= 9999
    ensures TextLess(FormatDate(CalendarDate(m)), FormatDate(CalendarDate(n))) <==> m < n
  {
    DateTextOrder(CalendarDate(m), CalendarDate(n));
    CalendarOrder(m, n);
  }
}
