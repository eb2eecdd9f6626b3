/** The slice of java.time the batch uses: calendar dates, month arithmetic
    (`plusMonths`, `minusMonths`, `withDayOfMonth`) and the two text forms of a
    date it produces, `MM-dd` (and MySQL's `%m-%d`) and ISO `yyyy-MM-dd`. */
module Dates {
  import opened Wrappers

  datatype LocalDate = LocalDate(year: int, month: int, day: int)

  /** The proleptic Gregorian leap-year rule of IsoChronology. */
  predicate IsLeapYear(year: int) {
    year % 4 == 0 && (year % 100 != 0 || year % 400 == 0)
  }

  function LengthOfMonth(year: int, month: int): (n: int)
    requires 1 <= month <= 12
    ensures 28 <= n <= 31
    ensures n == 29 <==> month == 2 && IsLeapYear(year)
  {
    if month == 2 then (if IsLeapYear(year) then 29 else 28)
    else if month == 4 || month == 6 || month == 9 || month == 11 then 30
    else 31
  }

  predicate IsValid(d: LocalDate) {
    1 <= d.month <= 12 && 1 <= d.day <= LengthOfMonth(d.year, d.month)
  }

  /** A date that exists in the calendar, as every LocalDate does. */
  type Date = d: LocalDate | IsValid(d) witness LocalDate(1970, 1, 1)

  /** A LocalDateTime without its nanoseconds. */
  datatype LocalDateTime = LocalDateTime(date: Date, hour: int, minute: int, second: int)

  predicate IsStartOfDay(t: LocalDateTime) {
    t.hour == 0 && t.minute == 0 && t.second == 0
  }

  /** Chronological order on dates. */
  predicate Before(a: LocalDate, b: LocalDate) {
    a.year < b.year || (a.year == b.year && (a.month < b.month || (a.month == b.month && a.day < b.day)))
  }

  /** Months counted from year 0, January; plusMonths moves along this count. */
  function MonthIndex(d: LocalDate): int {
    d.year * 12 + d.month - 1
  }

  /** LocalDate.plusMonths: move by whole months; a day the target month does
      not have becomes that month's last day. */
  function PlusMonths(d: Date, months: int): (r: Date)
    ensures MonthIndex(r) == MonthIndex(d) + months
    ensures r.day == if d.day <= LengthOfMonth(r.year, r.month) then d.day else LengthOfMonth(r.year, r.month)
  {
    var count := MonthIndex(d) + months;
    var year := count / 12;
    var month := count % 12 + 1;
    var last := LengthOfMonth(year, month);
    LocalDate(year, month, if d.day <= last then d.day else last)
  }

  /** LocalDate.minusMonths is plusMonths of the negated amount. */
  function MinusMonths(d: Date, months: int): (r: Date)
    ensures MonthIndex(r) == MonthIndex(d) - months
  {
    PlusMonths(d, -months)
  }

  /** LocalDate.withDayOfMonth, for a day the month has. */
  function WithDayOfMonth(d: Date, day: int): (r: Date)
    requires 1 <= day <= LengthOfMonth(d.year, d.month)
    ensures r.year == d.year && r.month == d.month && r.day == day
  {
    LocalDate(d.year, d.month, day)
  }

  // ---------------------------------------------------------------------
  // Text forms

  predicate IsDigit(c: char) {
    '0' <= c <= '9'
  }

  predicate AllDigits(s: string) {
    forall i :: 0 <= i < |s| ==> IsDigit(s[i])
  }

  function DigitChar(n: int): (c: char)
    requires 0 <= n <= 9
    ensures IsDigit(c) && c as int - '0' as int == n
  {
    ('0' as int + n) as char
  }

  /** The decimal digits of `n`, without leading zeros. */
  function Digits(n: nat): (s: string)
    ensures |s| >= 1 && AllDigits(s)
    ensures n < 10 ==> |s| == 1
    ensures n < 100 ==> |s| <= 2
    ensures n < 10000 ==> |s| <= 4
    decreases n
  {
    if n < 10 then [DigitChar(n)] else Digits(n / 10) + [DigitChar(n % 10)]
  }

  function Zeros(k: nat): (s: string)
    ensures |s| == k && AllDigits(s)
  {
    seq(k, _ => '0')
  }

  /** `n` in at least `width` digits, zero-padded on the left. */
  function Pad(n: nat, width: nat): (s: string)
    ensures AllDigits(s)
    ensures |s| == if |Digits(n)| < width then width else |Digits(n)|
  {
    var d := Digits(n);
    if |d| < width then Zeros(width - |d|) + d else d
  }

  /** The value of a string of decimal digits (leading zeros allowed). */
  function ParseNat(s: string): nat
    requires AllDigits(s)
    decreases |s|
  {
    if s == [] then 0 else ParseNat(s[..|s| - 1]) * 10 + (s[|s| - 1] as int - '0' as int)
  }

  lemma {:induction false} ParseDigits(n: nat)
    ensures ParseNat(Digits(n)) == n
    decreases n
  {
    if n >= 10 {
      ParseDigits(n / 10);
      var s := Digits(n / 10) + [DigitChar(n % 10)];
      assert s[..|s| - 1] == Digits(n / 10);
    }
  }

  lemma {:induction false} ParseLeadingZeros(k: nat, s: string)
    requires AllDigits(s)
    ensures ParseNat(Zeros(k) + s) == ParseNat(s)
    decreases |s|
  {
    var t := Zeros(k) + s;
    if s == [] {
      assert t == Zeros(k);
      ParseZeros(k);
    } else {
      assert t[..|t| - 1] == Zeros(k) + s[..|s| - 1];
      assert t[|t| - 1] == s[|s| - 1];
      ParseLeadingZeros(k, s[..|s| - 1]);
    }
  }

  lemma {:induction false} ParseZeros(k: nat)
    ensures ParseNat(Zeros(k)) == 0
    decreases k
  {
    if k > 0 {
      assert Zeros(k)[..k - 1] == Zeros(k - 1);
      ParseZeros(k - 1);
    }
  }

  lemma ParsePad(n: nat, width: nat)
    ensures ParseNat(Pad(n, width)) == n
  {
    ParseDigits(n);
    if |Digits(n)| < width {
      ParseLeadingZeros(width - |Digits(n)|, Digits(n));
    }
  }

  /** The month and day, zero-padded to two digits each: the text of
      LocalDate.format(ofPattern("MM-dd")) and of MySQL's DATE_FORMAT(d, '%m-%d'). */
  function MonthDay(d: Date): (s: string)
    ensures |s| == 5 && s[2] == '-'
  {
    Pad(d.month, 2) + "-" + Pad(d.day, 2)
  }

  /** The year as ISO_LOCAL_DATE prints it: four digits at least, a '+' before
      a year beyond 9999 and a '-' before a negative one. */
  function IsoYear(year: int): string {
    if year > 9999 then "+" + Digits(year)
    else if year < 0 then "-" + Pad(-year, 4)
    else Pad(year, 4)
  }

  /** DateTimeFormatter.ISO_DATE applied to a LocalDate: `yyyy-MM-dd`. */
  function IsoDate(d: Date): string {
    IsoYear(d.year) + "-" + MonthDay(d)
  }

  /** Reads back the month and day of a `MM-dd` text. */
  function ParseMonthDay(s: string): Option<(int, int)> {
    if |s| == 5 && s[2] == '-' && AllDigits(s[..2]) && AllDigits(s[3..])
    then Some((ParseNat(s[..2]), ParseNat(s[3..])))
    else None
  }

  /** Reads back a year printed by IsoYear. */
  function ParseIsoYear(s: string): Option<int> {
    if |s| > 0 && (s[0] == '+' || s[0] == '-') && AllDigits(s[1..]) then
      var magnitude: int := ParseNat(s[1..]);
      Some(if s[0] == '+' then magnitude else -magnitude)
    else if AllDigits(s) then Some(ParseNat(s))
    else None
  }

  /** Reads back a date printed by IsoDate: the year, then `-MM-dd`. */
  function ParseIsoDate(s: string): Option<LocalDate> {
    if |s| < 6 || s[|s| - 6] != '-' then None
    else
      match (ParseIsoYear(s[..|s| - 6]), ParseMonthDay(s[|s| - 5..]))
      case (Some(y), Some((m, d))) => Some(LocalDate(y, m, d))
      case _ => None
  }

  lemma MonthDayRoundTrip(d: Date)
    ensures ParseMonthDay(MonthDay(d)) == Some((d.month, d.day))
  {
    var s := MonthDay(d);
    assert s[..2] == Pad(d.month, 2);
    assert s[3..] == Pad(d.day, 2);
    ParsePad(d.month, 2);
    ParsePad(d.day, 2);
  }

  lemma IsoYearRoundTrip(year: int)
    ensures ParseIsoYear(IsoYear(year)) == Some(year)
  {
    var s := IsoYear(year);
    if year > 9999 {
      assert s[1..] == Digits(year);
      ParseDigits(year);
    } else if year < 0 {
      assert s[1..] == Pad(-year, 4);
      ParsePad(-year, 4);
    } else {
      ParsePad(year, 4);
    }
  }

  /** The ISO text of a date determines the date. */
  lemma IsoDateRoundTrip(d: Date)
    ensures ParseIsoDate(IsoDate(d)) == Some(d)
  {
    var s := IsoDate(d);
    var y := IsoYear(d.year);
    assert s[..|s| - 6] == y;
    assert s[|s| - 5..] == MonthDay(d);
    IsoYearRoundTrip(d.year);
    MonthDayRoundTrip(d);
  }
}
