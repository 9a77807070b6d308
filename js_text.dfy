/** The two pieces of text handling the expense tool relies on: `parseInt(text, 10)`,
    which reads the `summary` month and the `delete` id, and the `YYYY-MM-DD` dates
    that `add` stores and `summary` filters on. */
module JsText {
  import opened Wrappers

  predicate IsDigit(c: char) { '0' <= c <= '9' }

  predicate AllDigits(s: string) { forall i :: 0 <= i < |s| ==> IsDigit(s[i]) }

  /** The white space `parseInt` skips before the number (JavaScript's StrWhiteSpaceChar). */
  predicate IsWhite(c: char) {
    c == '\t' || c == '\n' || c == '\U{B}' || c == '\U{C}' || c == '\r' || c == ' '
    || c == '\U{A0}' || c == '\U{1680}' || ('\U{2000}' <= c <= '\U{200A}')
    || c == '\U{2028}' || c == '\U{2029}' || c == '\U{202F}' || c == '\U{205F}'
    || c == '\U{3000}' || c == '\U{FEFF}'
  }

  function DigitValue(c: char): (d: nat)
    requires IsDigit(c)
    ensures d < 10 && DigitChar(d) == c
  {
    (c as int - '0' as int) as nat
  }

  function DigitChar(d: nat): (c: char)
    requires d < 10
    ensures IsDigit(c)
  {
    ('0' as int + d) as char
  }

  /** The value of a string of decimal digits, most significant first. */
  function DigitsValue(s: string): (r: nat)
    requires AllDigits(s)
    decreases |s|
  {
    if |s| == 0 then 0
    else
      var high := DigitsValue(s[..|s| - 1]);
      high * 10 + DigitValue(s[|s| - 1])
  }

  /** `s` with its leading white space removed. */
  function SkipWhite(s: string): (r: string)
    ensures |r| <= |s| && r == s[|s| - |r|..]
    ensures forall i :: 0 <= i < |s| - |r| ==> IsWhite(s[i])
    ensures |r| > 0 ==> !IsWhite(r[0])
  {
    if |s| > 0 && IsWhite(s[0]) then SkipWhite(s[1..]) else s
  }

  /** The longest prefix of `s` made of decimal digits. */
  function DigitPrefix(s: string): (r: string)
    ensures |r| <= |s| && r == s[..|r|] && AllDigits(r)
    ensures |r| < |s| ==> !IsDigit(s[|r|])
  {
    if |s| > 0 && IsDigit(s[0]) then [s[0]] + DigitPrefix(s[1..]) else []
  }

  /** What follows the leading white space and an optional sign. */
  function Unsigned(s: string): string {
    var t := SkipWhite(s);
    if |t| > 0 && (t[0] == '-' || t[0] == '+') then t[1..] else t
  }

  predicate IsNegative(s: string) {
    var t := SkipWhite(s);
    |t| > 0 && t[0] == '-'
  }

  /** `parseInt(s, 10)`: skip white space, read an optional sign and then as many
      decimal digits as there are; `None` stands for `NaN`, the outcome when no digit
      follows the sign. The rest of the text is ignored. */
  function ParseInt(s: string): (r: Option<int>)
    ensures r.None? <==> |Unsigned(s)| == 0 || !IsDigit(Unsigned(s)[0])
    ensures r.Some? && !IsNegative(s) ==> r.value >= 0
  {
    var digits := DigitPrefix(Unsigned(s));
    if |digits| == 0 then None
    else
      var magnitude: int := DigitsValue(digits);
      Some(if IsNegative(s) then -magnitude else magnitude)
  }

  /** The decimal text of a natural number, without leading zeros. */
  function ShowNat(n: nat): (s: string)
    ensures |s| > 0 && AllDigits(s)
  {
    if n < 10 then [DigitChar(n)] else ShowNat(n / 10) + [DigitChar(n % 10)]
  }

  lemma {:induction false} DigitsValueShowNat(n: nat)
    ensures DigitsValue(ShowNat(n)) == n
  {
    var s := ShowNat(n);
    if n >= 10 {
      DigitsValueShowNat(n / 10);
      assert s[..|s| - 1] == ShowNat(n / 10);
    }
  }

  lemma {:induction false} DigitPrefixOfDigits(d: string, rest: string)
    requires AllDigits(d)
    requires rest == [] || !IsDigit(rest[0])
    ensures DigitPrefix(d + rest) == d
  {
    if d != [] {
      assert (d + rest)[1..] == d[1..] + rest;
      DigitPrefixOfDigits(d[1..], rest);
    } else {
      assert d + rest == rest;
    }
  }

  /** A run of digits followed by anything that is not a digit parses to the run's value. */
  lemma ParseIntOfDigits(d: string, rest: string)
    requires |d| > 0 && AllDigits(d)
    requires rest == [] || !IsDigit(rest[0])
    ensures ParseInt(d + rest) == Some(DigitsValue(d))
  {
    var s := d + rest;
    assert s[0] == d[0] && IsDigit(s[0]);
    assert !IsWhite(s[0]);
    assert SkipWhite(s) == s;
    assert !IsNegative(s);
    assert Unsigned(s) == s;
    DigitPrefixOfDigits(d, rest);
  }

  predicate AllWhite(s: string) { forall i :: 0 <= i < |s| ==> IsWhite(s[i]) }

  lemma {:induction false} SkipWhiteOf(w: string, t: string)
    requires AllWhite(w)
    requires |t| > 0 && !IsWhite(t[0])
    ensures SkipWhite(w + t) == t
  {
    if w == [] {
      assert w + t == t;
    } else {
      assert (w + t)[1..] == w[1..] + t;
      SkipWhiteOf(w[1..], t);
    }
  }

  lemma ParseIntOfPrefix(s: string, d: string)
    requires DigitPrefix(Unsigned(s)) == d && |d| > 0
    ensures ParseInt(s) == Some(if IsNegative(s) then -(DigitsValue(d) as int) else DigitsValue(d))
  {
  }

  lemma Regroup(a: string, b: string, c: string, d: string)
    ensures a + b + c + d == a + (b + (c + d))
  {
  }

  /** Leading white space without a sign: `parseInt` gives the digits' value. */
  lemma ParseIntWhite(w: string, d: string, rest: string)
    requires AllWhite(w)
    requires |d| > 0 && AllDigits(d)
    requires rest == [] || !IsDigit(rest[0])
    ensures ParseInt(w + d + rest) == Some(DigitsValue(d))
  {
    var t := d + rest;
    var s := w + d + rest;
    assert s == w + t;
    assert t[0] == d[0];
    assert IsDigit(t[0]) && t[0] != '-' && t[0] != '+' && !IsWhite(t[0]);
    SkipWhiteOf(w, t);
    assert Unsigned(s) == t && !IsNegative(s);
    DigitPrefixOfDigits(d, rest);
    ParseIntOfPrefix(s, d);
  }

  /** Leading white space and a sign: `parseInt` gives the digits' value, negated after
      a minus sign. */
  lemma ParseIntSigned(w: string, sign: char, d: string, rest: string)
    requires AllWhite(w) && (sign == '+' || sign == '-')
    requires |d| > 0 && AllDigits(d)
    requires rest == [] || !IsDigit(rest[0])
    ensures ParseInt(w + [sign] + d + rest)
              == Some(if sign == '-' then -(DigitsValue(d) as int) else DigitsValue(d))
  {
    var t := [sign] + (d + rest);
    var s := w + [sign] + d + rest;
    Regroup(w, [sign], d, rest);
    assert t[0] == sign && !IsWhite(sign);
    SkipWhiteOf(w, t);
    assert t[1..] == d + rest;
    assert Unsigned(s) == d + rest;
    assert IsNegative(s) <==> sign == '-';
    DigitPrefixOfDigits(d, rest);
    assert DigitPrefix(Unsigned(s)) == d;
    ParseIntOfPrefix(s, d);
  }

  /** `parseInt` reads back every natural number written in decimal. */
  lemma ParseIntShowNat(n: nat)
    ensures ParseInt(ShowNat(n)) == Some(n)
  {
    ParseIntOfDigits(ShowNat(n), []);
    assert ShowNat(n) + [] == ShowNat(n);
    DigitsValueShowNat(n);
  }

  // ----- Dates -----

  /** Two decimal digits written with a leading zero, as `toISOString` writes months and days. */
  function Pad2(n: nat): (s: string)
    requires n < 100
    ensures |s| == 2 && AllDigits(s)
  {
    [DigitChar(n / 10), DigitChar(n % 10)]
  }

  function Pad4(n: nat): (s: string)
    requires n < 10000
    ensures |s| == 4 && AllDigits(s)
  {
    Pad2(n / 100) + Pad2(n % 100)
  }

  /** A `YYYY-MM-DD` text for a year in 0..9999, a month and a day 01..31 in any month.
      For a day that exists in its month this is the date part of `toISOString()` (the
      text before the `T`); a day such as February 30 is accepted here but never written
      by `toISOString`. */
  function FormatDate(year: nat, month: nat, day: nat): (s: string)
    requires year < 10000 && 1 <= month <= 12 && 1 <= day <= 31
    ensures |s| == 10 && s[4] == '-' && s[7] == '-'
  {
    Pad4(year) + "-" + Pad2(month) + "-" + Pad2(day)
  }

  function TwoDigits(hi: char, lo: char): (n: nat)
    requires IsDigit(hi) && IsDigit(lo)
    ensures n < 100
  {
    DigitValue(hi) * 10 + DigitValue(lo)
  }

  /** The text has the `YYYY-MM-DD` layout: digits everywhere except two dashes. */
  predicate IsDateShaped(date: string) {
    |date| == 10 && date[4] == '-' && date[7] == '-'
    && IsDigit(date[0]) && IsDigit(date[1]) && IsDigit(date[2]) && IsDigit(date[3])
    && IsDigit(date[5]) && IsDigit(date[6]) && IsDigit(date[8]) && IsDigit(date[9])
  }

  /** The calendar month (1-12) of a stored `YYYY-MM-DD` date: the text `add` writes,
      with a month in 01..12 and a day in 01..31. Any other text has no month here, so
      its record is dated in no month. */
  function MonthOf(date: string): (m: Option<int>)
    ensures m.Some? ==> 1 <= m.value <= 12 && IsDateShaped(date)
  {
    if IsDateShaped(date) then
      var month := TwoDigits(date[5], date[6]);
      var day := TwoDigits(date[8], date[9]);
      if 1 <= month <= 12 && 1 <= day <= 31 then Some(month) else None
    else None
  }

  /** The month of a date written by `add` is the month it was written with. */
  lemma MonthOfFormatDate(year: nat, month: nat, day: nat)
    requires year < 10000 && 1 <= month <= 12 && 1 <= day <= 31
    ensures MonthOf(FormatDate(year, month, day)) == Some(month)
  {
  }

  lemma Pad2TwoDigits(hi: char, lo: char)
    requires IsDigit(hi) && IsDigit(lo)
    ensures Pad2(TwoDigits(hi, lo)) == [hi, lo]
  {
  }

  lemma Pad4Digits(a: char, b: char, c: char, d: char)
    requires IsDigit(a) && IsDigit(b) && IsDigit(c) && IsDigit(d)
    ensures TwoDigits(a, b) * 100 + TwoDigits(c, d) < 10000
    ensures Pad4(TwoDigits(a, b) * 100 + TwoDigits(c, d)) == [a, b, c, d]
  {
    var high, low := TwoDigits(a, b), TwoDigits(c, d);
    assert (high * 100 + low) / 100 == high && (high * 100 + low) % 100 == low;
    Pad2TwoDigits(a, b);
    Pad2TwoDigits(c, d);
  }

  /** Conversely, every date that has a month is one `FormatDate` writes for that month. */
  lemma MonthOfIsFormatted(date: string)
    requires MonthOf(date).Some?
    ensures exists year: nat, day: nat :: year < 10000 && 1 <= day <= 31
              && date == FormatDate(year, MonthOf(date).value, day)
  {
    var year := TwoDigits(date[0], date[1]) * 100 + TwoDigits(date[2], date[3]);
    var month := TwoDigits(date[5], date[6]);
    var day := TwoDigits(date[8], date[9]);
    Pad4Digits(date[0], date[1], date[2], date[3]);
    Pad2TwoDigits(date[5], date[6]);
    Pad2TwoDigits(date[8], date[9]);
    var s := FormatDate(year, month, day);
    assert s == [date[0], date[1], date[2], date[3]] + "-" + [date[5], date[6]] + "-" + [date[8], date[9]];
    assert s == date;
  }

  /** The month `new Date(date).getMonth() + 1` yields on a machine whose local time is
      `utcOffset` minutes ahead of UTC (negative west of Greenwich). A `YYYY-MM-DD`
      string is read as midnight UTC and the month is taken in local time, so west of
      UTC the first day of a month falls in the previous month. The source's `Date` also
      rolls a day past the end of its month into the next month; that is not modelled. */
  function LocalMonthOf(date: string, utcOffset: int): (m: Option<int>)
    requires -24 * 60 < utcOffset < 24 * 60
    ensures m.None? <==> MonthOf(date).None?
    ensures m.Some? ==> 1 <= m.value <= 12
  {
    match MonthOf(date)
    case None => None
    case Some(month) =>
      if utcOffset < 0 && TwoDigits(date[8], date[9]) == 1 then
        Some(if month == 1 then 12 else month - 1)
      else Some(month)
  }

  /** West of UTC the source files the first of every month under the month before. */
  lemma LocalMonthOfFirstDay(year: nat, month: nat, utcOffset: int)
    requires year < 10000 && 1 <= month <= 12
    requires -24 * 60 < utcOffset < 0
    ensures MonthOf(FormatDate(year, month, 1)) == Some(month)
    ensures LocalMonthOf(FormatDate(year, month, 1), utcOffset) != Some(month)
  {
  }

  /** The date `2024-05-01` at UTC-5: the source counts it in April. */
  lemma LocalMonthOfMayFirst()
    ensures MonthOf("2024-05-01") == Some(5)
    ensures LocalMonthOf("2024-05-01", -300) == Some(4)
  {
  }
}
