/**
 * The date handling of `parse_trace`: `datetime.strptime(token, '%Y%m%d')`
 * followed by `.strftime('%d-%m-%Y')`, restricted to tokens of eight ASCII
 * digits.
 */
module Calendar {
  import opened Wrappers

  /** A calendar date as Python's `datetime` holds it. */
  datatype Date = Date(year: int, month: int, day: int)

  predicate IsDigit(c: char) { '0' <= c <= '9' }

  predicate AllDigits(s: string) { forall i :: 0 <= i < |s| ==> IsDigit(s[i]) }

  function DigitValue(c: char): (v: nat)
    requires IsDigit(c)
    ensures v < 10
  {
    c as int - '0' as int
  }

  function DigitChar(v: nat): (c: char)
    requires v < 10
    ensures IsDigit(c) && DigitValue(c) == v
  {
    ('0' as int + v) as char
  }

  /** The number a string of decimal digits denotes, most significant first. */
  function DigitsValue(s: string): nat
    requires AllDigits(s)
  {
    if s == [] then 0 else DigitsValue(s[..|s| - 1]) * 10 + DigitValue(s[|s| - 1])
  }

  function Pow10(w: nat): (p: nat)
    ensures p >= 1
  {
    if w == 0 then 1 else 10 * Pow10(w - 1)
  }

  /** The `width` lowest decimal digits of `n`, zero-padded on the left. */
  function PadDigits(n: nat, width: nat): (s: string)
    ensures |s| == width && AllDigits(s)
  {
    if width == 0 then [] else PadDigits(n / 10, width - 1) + [DigitChar(n % 10)]
  }

  /** Padding the value of a digit string to its own width gives the string back. */
  lemma {:induction false} PadDigitsValue(s: string)
    requires AllDigits(s)
    ensures PadDigits(DigitsValue(s), |s|) == s
  {
    if s != [] {
      var init := s[..|s| - 1];
      assert AllDigits(init);
      var v := DigitsValue(init) * 10 + DigitValue(s[|s| - 1]);
      assert v / 10 == DigitsValue(init) && v % 10 == DigitValue(s[|s| - 1]);
      PadDigitsValue(init);
      assert s == init + [s[|s| - 1]];
    }
  }

  /** Reading back a padded number that fits in its width gives the number. */
  lemma {:induction false} ValueOfPadDigits(n: nat, width: nat)
    requires n < Pow10(width)
    ensures DigitsValue(PadDigits(n, width)) == n
  {
    if width > 0 {
      var q, d := n / 10, n % 10;
      assert n == q * 10 + d;
      assert q < Pow10(width - 1);
      ValueOfPadDigits(q, width - 1);
      var s := PadDigits(n, width);
      assert s == PadDigits(q, width - 1) + [DigitChar(d)];
      assert s[..|s| - 1] == PadDigits(q, width - 1);
      assert DigitsValue(s) == DigitsValue(PadDigits(q, width - 1)) * 10 + d;
    }
  }

  /** The Gregorian leap-year rule `datetime` applies. */
  predicate IsLeapYear(y: int) {
    y % 4 == 0 && (y % 100 != 0 || y % 400 == 0)
  }

  function DaysInMonth(y: int, m: int): (n: int)
    requires 1 <= m <= 12
    ensures 28 <= n <= 31
    ensures n == 29 <==> m == 2 && IsLeapYear(y)
    ensures n == 28 <==> m == 2 && !IsLeapYear(y)
  {
    if m == 2 then (if IsLeapYear(y) then 29 else 28)
    else if m == 4 || m == 6 || m == 9 || m == 11 then 30
    else 31
  }

  /** The dates `datetime` accepts: year from 1 (MINYEAR) to 9999 (MAXYEAR). */
  predicate ValidDate(d: Date) {
    1 <= d.year <= 9999 && 1 <= d.month <= 12 && 1 <= d.day <= DaysInMonth(d.year, d.month)
  }

  /** The `YYYYMMDD` token of a date. */
  function DateToken(d: Date): (tok: string)
    requires 0 <= d.year && 0 <= d.month && 0 <= d.day
    ensures |tok| == 8 && AllDigits(tok)
  {
    PadDigits(d.year, 4) + PadDigits(d.month, 2) + PadDigits(d.day, 2)
  }

  /**
   * `strptime(tok, '%Y%m%d')` on a token: eight digits split as four, two and
   * two, and the resulting date must exist; anything else is a ValueError (None).
   */
  function ParseDateToken(tok: string): (r: Option<Date>)
    ensures r.Some? ==> ValidDate(r.value) && |tok| == 8 && AllDigits(tok)
  {
    if |tok| == 8 && AllDigits(tok) then
      var d := Date(DigitsValue(tok[..4]), DigitsValue(tok[4..6]), DigitsValue(tok[6..]));
      if ValidDate(d) then Some(d) else None
    else None
  }

  /** `strftime('%d-%m-%Y')`: day and month on two digits, year on four. */
  function FormatDate(d: Date): (s: string)
    requires ValidDate(d)
    ensures |s| == 10 && s[2] == '-' && s[5] == '-'
  {
    PadDigits(d.day, 2) + "-" + PadDigits(d.month, 2) + "-" + PadDigits(d.year, 4)
  }

  /** The checked conversion `parse_trace` performs on its date token. */
  function ConvertDate(tok: string): (r: Option<string>)
    ensures r.Some? <==> ParseDateToken(tok).Some?
    ensures r.Some? ==> |tok| == 8 && AllDigits(tok) && |r.value| == 10
  {
    match ParseDateToken(tok)
    case Some(d) => Some(FormatDate(d))
    case None => None
  }

  /**
   * A token that converts is reordered, digit for digit, into `DD-MM-YYYY`:
   * the same day, month and year, zero-padded as they were written.
   */
  lemma ConvertDateReorders(tok: string)
    requires ConvertDate(tok).Some?
    ensures ConvertDate(tok).value == tok[6..8] + "-" + tok[4..6] + "-" + tok[..4]
  {
    var ys, ms, ds := tok[..4], tok[4..6], tok[6..];
    assert AllDigits(ys) && AllDigits(ms) && AllDigits(ds);
    var d := ParseDateToken(tok).value;
    assert d == Date(DigitsValue(ys), DigitsValue(ms), DigitsValue(ds));
    PadDigitsValue(ys);
    PadDigitsValue(ms);
    PadDigitsValue(ds);
    assert ds == tok[6..8];
    assert ConvertDate(tok).value == FormatDate(d);
  }

  /** Every valid date survives the trip through its token. */
  lemma ParseDateTokenOfDate(d: Date)
    requires ValidDate(d)
    ensures ParseDateToken(DateToken(d)) == Some(d)
  {
    var tok := DateToken(d);
    assert tok[..4] == PadDigits(d.year, 4);
    assert tok[4..6] == PadDigits(d.month, 2);
    assert tok[6..] == PadDigits(d.day, 2);
    ValueOfPadDigits(d.year, 4);
    ValueOfPadDigits(d.month, 2);
    ValueOfPadDigits(d.day, 2);
  }

  /** An eight-digit token converts exactly when the date it spells exists. */
  lemma ConvertDateIff(tok: string)
    requires |tok| == 8 && AllDigits(tok)
    ensures ConvertDate(tok).Some? <==>
      var y, m, d := DigitsValue(tok[..4]), DigitsValue(tok[4..6]), DigitsValue(tok[6..]);
      1 <= y && 1 <= m <= 12 && 1 <= d <= DaysInMonth(y, m)
  {
    assert AllDigits(tok[..4]);
    BoundOfDigits(tok[..4]);
  }

  /** A digit string's value fits in its width. */
  lemma {:induction false} BoundOfDigits(s: string)
    requires AllDigits(s)
    ensures DigitsValue(s) < Pow10(|s|)
  {
    if s != [] {
      assert AllDigits(s[..|s| - 1]);
      BoundOfDigits(s[..|s| - 1]);
    }
  }

  /** 29 February of a year converts exactly when that year is a leap year. */
  lemma LeapDay(y: int)
    requires 1 <= y <= 9999
    ensures ConvertDate(PadDigits(y, 4) + "0229").Some? <==> IsLeapYear(y)
  {
    var tok := PadDigits(y, 4) + "0229";
    assert tok == DateToken(Date(y, 2, 29)) by {
      assert PadDigits(2, 2) == "02" && PadDigits(29, 2) == "29";
    }
    if IsLeapYear(y) {
      ParseDateTokenOfDate(Date(y, 2, 29));
    } else {
      ValueOfPadDigits(y, 4);
      ValueOfPadDigits(2, 2);
      ValueOfPadDigits(29, 2);
      assert tok[..4] == PadDigits(y, 4);
      assert tok[4..6] == PadDigits(2, 2);
      assert tok[6..] == PadDigits(29, 2);
    }
  }

  /** A month field outside 1..12 always fails. */
  lemma MonthOutOfRange(tok: string)
    requires |tok| == 8 && AllDigits(tok)
    requires var m := DigitsValue(tok[4..6]); m < 1 || m > 12
    ensures ConvertDate(tok) == None
  {
  }

  /** A day past the end of its month always fails. */
  lemma DayPastMonthEnd(tok: string)
    requires |tok| == 8 && AllDigits(tok)
    requires var m := DigitsValue(tok[4..6]); 1 <= m <= 12 && DigitsValue(tok[6..]) > DaysInMonth(DigitsValue(tok[..4]), m)
    ensures ConvertDate(tok) == None
  {
  }
}
