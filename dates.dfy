/** Calendar dates as the validators read them: `LocalDate.parse(s, ofPattern("yyyy-MM-dd"))`
    with the formatter's default SMART resolver, and the `isBefore`/`isAfter` comparisons. */
module Dates {

  import opened Common

  datatype Date = Date(year: int, month: int, day: int)

  predicate IsLeapYear(y: int)
  {
    y % 4 == 0 && (y % 100 != 0 || y % 400 == 0)
  }

  /** Length of a month in the proleptic Gregorian calendar. */
  function DaysInMonth(y: int, m: int): (n: int)
    requires 1 <= m <= 12
    ensures 28 <= n <= 31
    ensures n == 29 <==> m == 2 && IsLeapYear(y)
  {
    if m == 2 then (if IsLeapYear(y) then 29 else 28)
    else if m == 4 || m == 6 || m == 9 || m == 11 then 30
    else 31
  }

  /** A date that exists and whose year is written with four digits. */
  predicate IsValid(d: Date)
  {
    1 <= d.year <= 9999 && 1 <= d.month <= 12 && 1 <= d.day <= DaysInMonth(d.year, d.month)
  }

  /** `LocalDate.isBefore`: strictly earlier on the calendar. */
  predicate IsBefore(a: Date, b: Date)
  {
    || a.year < b.year
    || (a.year == b.year && a.month < b.month)
    || (a.year == b.year && a.month == b.month && a.day < b.day)
  }

  /** `LocalDate.isAfter`: strictly later on the calendar. */
  predicate IsAfter(a: Date, b: Date)
  {
    IsBefore(b, a)
  }

  predicate IsDigit(c: char)
  {
    '0' <= c <= '9'
  }

  function DigitValue(c: char): (n: nat)
    requires IsDigit(c)
    ensures n < 10
  {
    c as int - '0' as int
  }

  function DigitChar(n: nat): (c: char)
    requires n < 10
    ensures IsDigit(c) && DigitValue(c) == n
  {
    ('0' as int + n) as char
  }

  /** "yyyy-MM-dd" read strictly: four digits, a dash, two digits, a dash, two digits,
      and nothing else. */
  predicate HasPatternShape(s: string)
  {
    && |s| == 10
    && IsDigit(s[0]) && IsDigit(s[1]) && IsDigit(s[2]) && IsDigit(s[3])
    && s[4] == '-'
    && IsDigit(s[5]) && IsDigit(s[6])
    && s[7] == '-'
    && IsDigit(s[8]) && IsDigit(s[9])
  }

  function YearField(s: string): nat
    requires HasPatternShape(s)
  {
    ((DigitValue(s[0]) * 10 + DigitValue(s[1])) * 10 + DigitValue(s[2])) * 10 + DigitValue(s[3])
  }

  function MonthField(s: string): nat
    requires HasPatternShape(s)
  {
    DigitValue(s[5]) * 10 + DigitValue(s[6])
  }

  function DayField(s: string): nat
    requires HasPatternShape(s)
  {
    DigitValue(s[8]) * 10 + DigitValue(s[9])
  }

  /** `LocalDate.parse` with pattern "yyyy-MM-dd": `None` where Java throws
      `DateTimeParseException`. Year-of-era 0, month outside 1..12 and day outside 1..31
      are rejected; a day of 29..31 past the end of its month is moved back to the month's
      last day, as the SMART resolver does. */
  function Parse(s: string): (r: Option<Date>)
    ensures r.Some? ==> IsValid(r.value)
    ensures r.Some? ==> HasPatternShape(s) && r.value.year == YearField(s) && r.value.month == MonthField(s)
    ensures r.Some? && DayField(s) <= DaysInMonth(r.value.year, r.value.month) ==> r.value.day == DayField(s)
    ensures r.Some? && DayField(s) > DaysInMonth(r.value.year, r.value.month) ==>
              r.value.day == DaysInMonth(r.value.year, r.value.month)
    ensures !HasPatternShape(s) ==> r.None?
    ensures HasPatternShape(s) ==>
              (r.Some? <==> 1 <= YearField(s) && 1 <= MonthField(s) <= 12 && 1 <= DayField(s) <= 31)
  {
    if !HasPatternShape(s) then None
    else
      var y, m, d := YearField(s), MonthField(s), DayField(s);
      if y == 0 || m < 1 || 12 < m || d < 1 || 31 < d then None
      else Some(Date(y, m, if d <= DaysInMonth(y, m) then d else DaysInMonth(y, m)))
  }

  /** `LocalDate.format` with pattern "yyyy-MM-dd" for a four-digit year. */
  function Format(d: Date): (s: string)
    requires IsValid(d)
    ensures HasPatternShape(s)
  {
    [ DigitChar(d.year / 1000), DigitChar(d.year / 100 % 10), DigitChar(d.year / 10 % 10), DigitChar(d.year % 10),
      '-', DigitChar(d.month / 10), DigitChar(d.month % 10),
      '-', DigitChar(d.day / 10), DigitChar(d.day % 10) ]
  }

  lemma FourDigits(n: nat)
    requires n < 10000
    ensures ((n / 1000 * 10 + n / 100 % 10) * 10 + n / 10 % 10) * 10 + n % 10 == n
  {
  }

  /** Every valid date is read back from its own text. */
  lemma {:induction false} ParseFormat(d: Date)
    requires IsValid(d)
    ensures Parse(Format(d)) == Some(d)
  {
    var s := Format(d);
    FourDigits(d.year);
    assert YearField(s) == d.year;
    assert MonthField(s) == d.month;
    assert DayField(s) == d.day;
  }

  /** Whatever `Parse` accepts is the text of a valid date, possibly with the day clamped. */
  lemma {:induction false} FormatParse(s: string, d: Date)
    requires Parse(s) == Some(d)
    ensures Parse(Format(d)) == Some(d)
    ensures DayField(s) <= DaysInMonth(d.year, d.month) ==> Format(d) == s
  {
    ParseFormat(d);
    var t := Format(d);
    if DayField(s) <= DaysInMonth(d.year, d.month) {
      assert t[0] == s[0] && t[1] == s[1] && t[2] == s[2] && t[3] == s[3];
      assert t[5] == s[5] && t[6] == s[6] && t[8] == s[8] && t[9] == s[9];
    }
  }
}
