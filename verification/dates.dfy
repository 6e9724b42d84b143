/**
 The date token of a receipt name read with `strptime(token, "%Y%m%d")`.
 The format's regular expression needs between six and eight characters
 (four year digits, one or two month digits, one or two day digits) and any
 unconsumed character is an error, so a token of another width is always
 rejected. For a token of eight ASCII digits the first match is exactly
 YYYY MM DD when MM is 01..12 and DD is 01..31, and every other eight-digit
 token leaves characters over or fails to match; the date must then exist
 in the proleptic Gregorian calendar with a year from 1 to 9999. Every
 directive of the format consumes only decimal digits (and `%d` one leading
 space), so a token holding any other ASCII character is rejected too. The
 remaining six- to eight-character tokens (those made only of digits,
 spaces and non-ASCII characters, other than eight ASCII digits) are not
 decided by this model.
 */
module Dates {

  datatype Date = Date(year: int, month: int, day: int)

  /** What `strptime` does with a token. */
  datatype DateParse = Parsed(date: Date) | Rejected | NotModelled

  predicate IsLeap(y: int)
  {
    y % 4 == 0 && (y % 100 != 0 || y % 400 == 0)
  }

  function DaysInMonth(y: int, m: int): (n: int)
    requires 1 <= m <= 12
    ensures 28 <= n <= 31
    ensures m == 2 ==> (n == 29 <==> IsLeap(y))
  {
    if m == 2 then (if IsLeap(y) then 29 else 28)
    else if m == 4 || m == 6 || m == 9 || m == 11 then 30
    else 31
  }

  /** A date Python's `datetime.date` accepts. */
  predicate ValidDate(d: Date)
  {
    1 <= d.year <= 9999 && 1 <= d.month <= 12 && 1 <= d.day <= DaysInMonth(d.year, d.month)
  }

  predicate IsDigit(ch: char)
  {
    '0' <= ch <= '9'
  }

  predicate AllDigits(s: string)
  {
    forall k :: 0 <= k < |s| ==> IsDigit(s[k])
  }

  function DigitValue(ch: char): int
  {
    ch as int - '0' as int
  }

  function Digit(n: int): (ch: char)
    requires 0 <= n <= 9
    ensures IsDigit(ch) && DigitValue(ch) == n
  {
    ('0' as int + n) as char
  }

  /** The token holds an ASCII character no directive of `%Y%m%d` can
      consume: anything but a decimal digit or a space. */
  predicate HasStrayAscii(tok: string)
  {
    exists k :: 0 <= k < |tok| && tok[k] as int < 128 && !IsDigit(tok[k]) && tok[k] != ' '
  }

  /** The three numeric fields of an eight-character token. */
  function YearOf(tok: string): int
    requires |tok| == 8
  {
    1000 * DigitValue(tok[0]) + 100 * DigitValue(tok[1]) + 10 * DigitValue(tok[2]) + DigitValue(tok[3])
  }

  function MonthOf(tok: string): int
    requires |tok| == 8
  {
    10 * DigitValue(tok[4]) + DigitValue(tok[5])
  }

  function DayOf(tok: string): int
    requires |tok| == 8
  {
    10 * DigitValue(tok[6]) + DigitValue(tok[7])
  }

  /** The YYYYMMDD token naming a date. */
  function FormatDate(d: Date): (s: string)
    requires ValidDate(d)
    ensures |s| == 8 && AllDigits(s)
  {
    [Digit(d.year / 1000), Digit(d.year / 100 % 10), Digit(d.year / 10 % 10), Digit(d.year % 10),
     Digit(d.month / 10), Digit(d.month % 10), Digit(d.day / 10), Digit(d.day % 10)]
  }

  /** `strptime(tok, "%Y%m%d").date()`. A parsed date is valid and is
      written back as the very token it came from; other widths fail. */
  function ParseDate(tok: string): (r: DateParse)
    ensures |tok| < 6 || 8 < |tok| ==> r == Rejected
    ensures |tok| == 8 && AllDigits(tok) ==> !r.NotModelled?
    ensures HasStrayAscii(tok) ==> r == Rejected
    ensures r.Parsed? ==> ValidDate(r.date) && FormatDate(r.date) == tok
  {
    if |tok| < 6 || 8 < |tok| then Rejected
    else if |tok| == 8 && AllDigits(tok) then
      var d := Date(YearOf(tok), MonthOf(tok), DayOf(tok));
      if ValidDate(d) then
        FormattedFields(tok);
        Parsed(d)
      else Rejected
    else if HasStrayAscii(tok) then Rejected
    else NotModelled
  }

  lemma DigitRoundTrip(ch: char)
    requires IsDigit(ch)
    ensures Digit(DigitValue(ch)) == ch
  {
  }

  /** Euclidean division by a power of ten undoes `p * q + r`. */
  lemma DivTen(q: int, r: int)
    requires 0 <= r < 10
    ensures (10 * q + r) / 10 == q && (10 * q + r) % 10 == r
  {
  }

  /** The four decimal digits of a year, most significant first. */
  lemma YearDigits(a: int, b: int, c: int, e: int)
    requires 0 <= a <= 9 && 0 <= b <= 9 && 0 <= c <= 9 && 0 <= e <= 9
    ensures var y := 1000 * a + 100 * b + 10 * c + e;
      y / 1000 == a && y / 100 % 10 == b && y / 10 % 10 == c && y % 10 == e
  {
    var y := 1000 * a + 100 * b + 10 * c + e;
    DivTen(100 * a + 10 * b + c, e);
    DivTen(10 * a + b, c);
    DivTen(a, b);
    assert y / 100 == (y / 10) / 10;
    assert y / 1000 == (y / 100) / 10;
  }

  /** A year below 10000 is the sum of its four decimal digits. */
  lemma YearSplit(y: int)
    requires 0 <= y <= 9999
    ensures 1000 * (y / 1000) + 100 * (y / 100 % 10) + 10 * (y / 10 % 10) + y % 10 == y
  {
    var q1 := y / 10;
    var q2 := q1 / 10;
    var q3 := q2 / 10;
    DivTen(q1, y % 10);
    DivTen(q2, q1 % 10);
    DivTen(q3, q2 % 10);
    assert y / 100 == q2;
    assert y / 1000 == q3;
  }

  /** Writing out the fields of a digit token gives the token back. */
  lemma FormattedFields(tok: string)
    requires |tok| == 8 && AllDigits(tok)
    requires ValidDate(Date(YearOf(tok), MonthOf(tok), DayOf(tok)))
    ensures FormatDate(Date(YearOf(tok), MonthOf(tok), DayOf(tok))) == tok
  {
    YearDigits(DigitValue(tok[0]), DigitValue(tok[1]), DigitValue(tok[2]), DigitValue(tok[3]));
    DivTen(DigitValue(tok[4]), DigitValue(tok[5]));
    DivTen(DigitValue(tok[6]), DigitValue(tok[7]));
    var f := FormatDate(Date(YearOf(tok), MonthOf(tok), DayOf(tok)));
    forall k | 0 <= k < 8
      ensures f[k] == tok[k]
    {
      DigitRoundTrip(tok[k]);
    }
  }

  /** Every valid date is read back from its own token. */
  lemma ParseFormat(d: Date)
    requires ValidDate(d)
    ensures ParseDate(FormatDate(d)) == Parsed(d)
  {
    var s := FormatDate(d);
    var y := d.year;
    YearSplit(y);
    assert YearOf(s) == y;
    assert MonthOf(s) == d.month;
    assert DayOf(s) == d.day;
  }

  /** An eight-digit token is rejected exactly when no valid date is written
      that way. */
  lemma RejectedIffNoDate(tok: string)
    requires |tok| == 8 && AllDigits(tok)
    ensures ParseDate(tok) == Rejected <==> forall d :: ValidDate(d) ==> FormatDate(d) != tok
  {
    if ParseDate(tok) == Rejected {
      forall d | ValidDate(d) ensures FormatDate(d) != tok {
        ParseFormat(d);
      }
    }
  }

  /** Tokens with a separator or a month name are rejected whatever
      their width. */
  lemma StrayCharacterExample()
    ensures ParseDate("2018-1-5") == Rejected
    ensures ParseDate("2018Jan5") == Rejected
  {
    assert "2018-1-5"[4] == '-';
    assert "2018Jan5"[4] == 'J';
  }

  /** February 29 exists in leap years only. */
  lemma LeapDayExample()
    ensures ParseDate("20190229") == Rejected
    ensures ParseDate("20200229") == Parsed(Date(2020, 2, 29))
  {
    ParseFormat(Date(2020, 2, 29));
    assert FormatDate(Date(2020, 2, 29)) == "20200229";
    assert AllDigits("20190229");
  }
}
