/** `month_range` of `ynam/dates.py`: a `YYYY-MM` month becomes the half-open range
    `[first of the month, first of the next month)` as ISO dates plus an English
    label. The model follows the source's steps: `strptime` with `%Y-%m`, then
    `replace(day=28) + timedelta(days=4)` and `replace(day=1)` for the next month. */
module Dates {
  import opened Wrappers
  import Strings

  // ---------------------------------------------------------------------------
  // Fixed-width decimal numerals

  predicate IsDigit(c: char) {
    '0' <= c <= '9'
  }

  function DigitChar(d: int): (c: char)
    requires 0 <= d <= 9
    ensures IsDigit(c)
  {
    ('0' as int + d) as char
  }

  function DigitValue(c: char): (d: int)
    requires IsDigit(c)
    ensures 0 <= d <= 9 && DigitChar(d) == c
  {
    c as int - '0' as int
  }

  predicate AllDigits(s: string) {
    forall i :: 0 <= i < |s| ==> IsDigit(s[i])
  }

  function Pow10(w: nat): (r: nat)
    ensures r >= 1
  {
    if w == 0 then 1 else 10 * Pow10(w - 1)
  }

  /** The last `w` decimal digits of `n`, zero-padded: strftime's `%Y` is `Digits(y, 4)`
      and `%m` and `%d` are `Digits(_, 2)`. */
  function Digits(n: nat, w: nat): (r: string)
    ensures |r| == w && AllDigits(r)
  {
    if w == 0 then [] else Digits(n / 10, w - 1) + [DigitChar(n % 10)]
  }

  /** The number a string of decimal digits spells, as `int()` reads it. */
  function Value(s: string): (n: nat)
    requires AllDigits(s)
    ensures n < Pow10(|s|)
  {
    if |s| == 0 then 0 else Value(s[..|s| - 1]) * 10 + DigitValue(s[|s| - 1])
  }

  /** Reading back a numeral gives its number. */
  lemma {:induction false} ValueOfDigits(n: nat, w: nat)
    requires n < Pow10(w)
    ensures Value(Digits(n, w)) == n
  {
    if w > 0 {
      var s := Digits(n, w);
      assert s[..|s| - 1] == Digits(n / 10, w - 1);
      ValueOfDigits(n / 10, w - 1);
    }
  }

  /** A string of digits is the zero-padded numeral of its value. */
  lemma {:induction false} DigitsOfValue(s: string)
    requires AllDigits(s)
    ensures Digits(Value(s), |s|) == s
  {
    if |s| > 0 {
      var p := s[..|s| - 1];
      var n := Value(s);
      assert n / 10 == Value(p) && n % 10 == DigitValue(s[|s| - 1]);
      DigitsOfValue(p);
      assert s == p + [s[|s| - 1]];
    }
  }

  /** Numerals of one width sort as their numbers do, which is why ISO dates can be
      compared as strings. */
  lemma {:induction false} DigitsOrder(a: nat, b: nat, w: nat)
    requires a < b < Pow10(w)
    ensures Strings.Less(Digits(a, w), Digits(b, w))
  {
    assert w > 0;
    var hiA, hiB := Digits(a / 10, w - 1), Digits(b / 10, w - 1);
    var loA, loB := [DigitChar(a % 10)], [DigitChar(b % 10)];
    if a / 10 < b / 10 {
      DigitsOrder(a / 10, b / 10, w - 1);
      Strings.LessExtend(hiA, hiB, loA, loB);
    } else {
      assert Strings.Less(loA, loB);
      Strings.LessCommonPrefix(hiA, loA, loB);
    }
  }

  // ---------------------------------------------------------------------------
  // Calendar

  datatype YearMonth = YearMonth(year: int, month: int)

  /** `datetime` accepts years 1 to 9999 (`MINYEAR`, `MAXYEAR`). */
  const MaxYear := 9999

  predicate ValidYearMonth(ym: YearMonth) {
    1 <= ym.year <= MaxYear && 1 <= ym.month <= 12
  }

  predicate IsLeapYear(y: int) {
    y % 4 == 0 && (y % 100 != 0 || y % 400 == 0)
  }

  function DaysInMonth(y: int, m: int): (r: int)
    requires 1 <= m <= 12
    ensures 28 <= r <= 31
  {
    if m == 2 then (if IsLeapYear(y) then 29 else 28)
    else if m == 4 || m == 6 || m == 9 || m == 11 then 30
    else 31
  }

  datatype Date = Date(year: int, month: int, day: int)

  /** The following calendar day, before any range check on the year. */
  function NextDay(d: Date): (r: Date)
    requires 1 <= d.month <= 12
    ensures 1 <= r.month <= 12
  {
    if d.day < DaysInMonth(d.year, d.month) then Date(d.year, d.month, d.day + 1)
    else if d.month < 12 then Date(d.year, d.month + 1, 1)
    else Date(d.year + 1, 1, 1)
  }

  /** A shifted date, or the `OverflowError` Python raises for a date past year 9999. */
  datatype Shifted = Shifted(date: Date) | Overflow

  /** `date + timedelta(days=n)`. */
  function AddDays(d: Date, n: nat): Shifted
    requires 1 <= d.month <= 12
    decreases n
  {
    if n == 0 then Shifted(d)
    else
      var next := NextDay(d);
      if next.year > MaxYear then Overflow else AddDays(next, n - 1)
  }

  /** The month after `ym`; December rolls over into January of the next year. */
  function NextMonth(ym: YearMonth): (r: YearMonth)
    ensures 1 <= ym.month <= 12 ==> 1 <= r.month <= 12
  {
    if ym.month == 12 then YearMonth(ym.year + 1, 1) else YearMonth(ym.year, ym.month + 1)
  }

  /** The 28th plus four days always lands early in the next month, whatever the
      month's length, leap Februaries included; only December 9999 overflows. */
  lemma Day28Step(ym: YearMonth)
    requires ValidYearMonth(ym)
    ensures var s := AddDays(Date(ym.year, ym.month, 28), 4);
      if ym.year == MaxYear && ym.month == 12 then s.Overflow?
      else
        && s.Shifted?
        && s.date.year == NextMonth(ym).year
        && s.date.month == NextMonth(ym).month
        && s.date.day == 32 - DaysInMonth(ym.year, ym.month)
  {
    var d0 := Date(ym.year, ym.month, 28);
    var d1 := NextDay(d0);
    var d2 := NextDay(d1);
    var d3 := NextDay(d2);
    var d4 := NextDay(d3);
    assert AddDays(d0, 4) == if d1.year > MaxYear then Overflow else AddDays(d1, 3);
    assert AddDays(d1, 3) == if d2.year > MaxYear then Overflow else AddDays(d2, 2);
    assert AddDays(d2, 2) == if d3.year > MaxYear then Overflow else AddDays(d3, 1);
    assert AddDays(d3, 1) == if d4.year > MaxYear then Overflow else AddDays(d4, 0);
  }

  // ---------------------------------------------------------------------------
  // Parsing and formatting

  /** `datetime.strptime(month, "%Y-%m")`. `%Y` takes exactly four digits and `%m`
      takes the first of `1[0-2]`, `0[1-9]` or `[1-9]` that matches; the whole input
      must be consumed, and year 0 is outside `datetime`'s range. None stands for the
      `ValueError` raised otherwise. */
  function ParseMonth(s: string): (r: Option<YearMonth>)
    ensures r.Some? ==> ValidYearMonth(r.value)
  {
    if |s| < 6 || !AllDigits(s[..4]) || s[4] != '-' then None
    else
      var year := Value(s[..4]);
      var rest := s[5..];
      var month :=
        if |rest| >= 2 && rest[0] == '1' && '0' <= rest[1] <= '2' then Some((10 + DigitValue(rest[1]), 2))
        else if |rest| >= 2 && rest[0] == '0' && '1' <= rest[1] <= '9' then Some((DigitValue(rest[1]), 2))
        else if '1' <= rest[0] <= '9' then Some((DigitValue(rest[0]), 1))
        else None;
      if month.None? || month.value.1 != |rest| || year == 0 then None
      else Some(YearMonth(year, month.value.0))
  }

  /** The canonical `YYYY-MM` spelling of a month. */
  function FormatMonth(ym: YearMonth): string
    requires ValidYearMonth(ym)
  {
    Digits(ym.year, 4) + "-" + Digits(ym.month, 2)
  }

  /** Every canonical spelling parses back to its month. */
  lemma ParseFormatMonth(ym: YearMonth)
    requires ValidYearMonth(ym)
    ensures ParseMonth(FormatMonth(ym)) == Some(ym)
  {
    var s := FormatMonth(ym);
    assert s[..4] == Digits(ym.year, 4);
    assert s[5..] == Digits(ym.month, 2);
    ValueOfDigits(ym.year, 4);
    TwoDigits(ym.month);
  }

  /** Conversely, the parser accepts only the canonical spelling and, for months 1 to
      9, the spelling without the leading zero. */
  lemma ParsedIsCanonical(s: string)
    requires ParseMonth(s).Some?
    ensures var ym := ParseMonth(s).value;
      || s == FormatMonth(ym)
      || (ym.month <= 9 && s == Digits(ym.year, 4) + "-" + [DigitChar(ym.month)])
  {
    var ym := ParseMonth(s).value;
    DigitsOfValue(s[..4]);
    assert s == s[..4] + "-" + s[5..];
    TwoDigits(ym.month);
  }

  lemma TwoDigits(n: nat)
    requires n < 100
    ensures Digits(n, 2) == [DigitChar(n / 10), DigitChar(n % 10)]
  {
    var q := n / 10;
    assert q < 10;
    assert q % 10 == q;
    assert Digits(q, 1) == Digits(q / 10, 0) + [DigitChar(q % 10)];
    assert Digits(n, 2) == Digits(q, 1) + [DigitChar(n % 10)];
  }

  /** `strftime("%Y-%m-%d")`. */
  function IsoDate(year: int, month: int, day: int): (r: string)
    requires 0 <= year <= MaxYear && 1 <= month <= 12 && 1 <= day <= 31
    ensures |r| == 10
  {
    Digits(year, 4) + "-" + Digits(month, 2) + "-" + Digits(day, 2)
  }

  /** `strftime("%B")` in the C locale. */
  function MonthName(m: int): (r: string)
    requires 1 <= m <= 12
    ensures |r| > 0
  {
    ["January", "February", "March", "April", "May", "June", "July",
     "August", "September", "October", "November", "December"][m - 1]
  }

  // ---------------------------------------------------------------------------
  // month_range

  /** `ValueError` from `strptime`, or `OverflowError` from the date arithmetic. */
  datatype MonthError = InvalidMonth | DateOverflow

  datatype MonthRangeResult =
    | Range(since: string, until: string, monthLabel: string)
    | Failure(error: MonthError)

  function MonthRange(month: string): (r: MonthRangeResult)
    ensures r == Failure(InvalidMonth) <==> ParseMonth(month).None?
    ensures r == Failure(DateOverflow) <==> ParseMonth(month) == Some(YearMonth(MaxYear, 12))
    ensures r.Range? ==>
      var ym := ParseMonth(month).value;
      var next := NextMonth(ym);
      && ValidYearMonth(next)
      && r.since == IsoDate(ym.year, ym.month, 1)
      && r.until == IsoDate(next.year, next.month, 1)
      && r.monthLabel == MonthName(ym.month) + " " + Digits(ym.year, 4)
  {
    match ParseMonth(month)
    case None => Failure(InvalidMonth)
    case Some(ym) =>
      var since := IsoDate(ym.year, ym.month, 1);
      Day28Step(ym);
      match AddDays(Date(ym.year, ym.month, 28), 4)
      case Overflow => Failure(DateOverflow)
      case Shifted(d) =>
        var until := IsoDate(d.year, d.month, 1);
        Range(since, until, MonthName(ym.month) + " " + Digits(ym.year, 4))
  }

  /** `since < until` as strings, so the pair bounds a non-empty half-open range. */
  lemma SinceBeforeUntil(month: string)
    requires MonthRange(month).Range?
    ensures Strings.Less(MonthRange(month).since, MonthRange(month).until)
  {
    var ym := ParseMonth(month).value;
    var next := NextMonth(ym);
    FirstDaysOrdered(ym, next);
  }

  /** First days of months compare as ISO strings in calendar order. */
  lemma FirstDaysOrdered(a: YearMonth, b: YearMonth)
    requires ValidYearMonth(a) && ValidYearMonth(b)
    requires a.year < b.year || (a.year == b.year && a.month < b.month)
    ensures Strings.Less(IsoDate(a.year, a.month, 1), IsoDate(b.year, b.month, 1))
  {
    var day := "-" + Digits(1, 2);
    var restA := "-" + Digits(a.month, 2) + day;
    var restB := "-" + Digits(b.month, 2) + day;
    IsoDateSplit(a.year, a.month);
    IsoDateSplit(b.year, b.month);
    if a.year == b.year {
      MonthsOrdered(a.month, b.month, day);
      Strings.LessCommonPrefix(Digits(a.year, 4), restA, restB);
    } else {
      DigitsOrder(a.year, b.year, 4);
      Strings.LessExtend(Digits(a.year, 4), Digits(b.year, 4), restA, restB);
    }
  }

  lemma IsoDateSplit(year: int, month: int)
    requires 0 <= year <= MaxYear && 1 <= month <= 12
    ensures IsoDate(year, month, 1) == Digits(year, 4) + ("-" + Digits(month, 2) + ("-" + Digits(1, 2)))
  {
  }

  /** Within a year, the month part decides. */
  lemma MonthsOrdered(m: nat, n: nat, day: string)
    requires m < n <= 12
    ensures Strings.Less("-" + Digits(m, 2) + day, "-" + Digits(n, 2) + day)
  {
    DigitsOrder(m, n, 2);
    Strings.LessExtend(Digits(m, 2), Digits(n, 2), day, day);
    Strings.LessCommonPrefix("-", Digits(m, 2) + day, Digits(n, 2) + day);
    assert "-" + Digits(m, 2) + day == "-" + (Digits(m, 2) + day);
    assert "-" + Digits(n, 2) + day == "-" + (Digits(n, 2) + day);
  }

  /** Consecutive months tile the calendar: a month's `until` is the next month's
      `since`. */
  lemma MonthsTile(ym: YearMonth)
    requires ValidYearMonth(ym) && ValidYearMonth(NextMonth(ym))
    requires NextMonth(ym) != YearMonth(MaxYear, 12)
    ensures MonthRange(FormatMonth(ym)).Range?
    ensures MonthRange(FormatMonth(NextMonth(ym))).Range?
    ensures MonthRange(FormatMonth(ym)).until == MonthRange(FormatMonth(NextMonth(ym))).since
  {
    ParseFormatMonth(ym);
    ParseFormatMonth(NextMonth(ym));
  }

  lemma DecemberExample()
    ensures MonthRange("2025-12") == Range("2025-12-01", "2026-01-01", "December 2025")
  {
    DecemberSpelled();
    CanonicalRange(YearMonth(2025, 12));
  }

  lemma DecemberSpelled()
    ensures FormatMonth(YearMonth(2025, 12)) == "2025-12"
    ensures IsoDate(2025, 12, 1) == "2025-12-01" && IsoDate(2026, 1, 1) == "2026-01-01"
    ensures NextMonth(YearMonth(2025, 12)) == YearMonth(2026, 1)
    ensures MonthName(12) + " " + Digits(2025, 4) == "December 2025"
  {
    Spell4(2025, "2025");
    Spell4(2026, "2026");
    Spell2(12, "12");
    Spell2(1, "01");
  }

  lemma LeapFebruaryExample()
    ensures MonthRange("2024-02") == Range("2024-02-01", "2024-03-01", "February 2024")
  {
    FebruarySpelled();
    CanonicalRange(YearMonth(2024, 2));
  }

  lemma FebruarySpelled()
    ensures FormatMonth(YearMonth(2024, 2)) == "2024-02"
    ensures IsoDate(2024, 2, 1) == "2024-02-01" && IsoDate(2024, 3, 1) == "2024-03-01"
    ensures NextMonth(YearMonth(2024, 2)) == YearMonth(2024, 3)
    ensures MonthName(2) + " " + Digits(2024, 4) == "February 2024"
  {
    Spell4(2024, "2024");
    Spell2(2, "02");
    Spell2(3, "03");
    Spell2(1, "01");
  }

  /** Helpers for the examples: a numeral spelled out digit by digit, last digit
      first as `Digits` produces it. */
  lemma Spell4(n: nat, s: string)
    requires |s| == 4
    requires s[3] == DigitChar(n % 10) && s[2] == DigitChar(n / 10 % 10)
    requires s[1] == DigitChar(n / 10 / 10 % 10) && s[0] == DigitChar(n / 10 / 10 / 10 % 10)
    ensures Digits(n, 4) == s
  {
    var a := n / 10;
    var b := a / 10;
    var c := b / 10;
    assert Digits(c, 1) == [s[0]];
    assert Digits(b, 2) == [s[0], s[1]];
    assert Digits(a, 3) == [s[0], s[1], s[2]];
    assert Digits(n, 4) == [s[0], s[1], s[2], s[3]];
  }

  lemma Spell2(n: nat, s: string)
    requires |s| == 2
    requires s[1] == DigitChar(n % 10) && s[0] == DigitChar(n / 10 % 10)
    ensures Digits(n, 2) == s
  {
    assert Digits(n / 10, 1) == [s[0]];
    assert Digits(n, 2) == [s[0], s[1]];
  }

  /** The range of a canonically spelled month that is not the last one. */
  lemma CanonicalRange(ym: YearMonth)
    requires ValidYearMonth(ym) && ym != YearMonth(MaxYear, 12)
    ensures var next := NextMonth(ym);
      && ValidYearMonth(next)
      && MonthRange(FormatMonth(ym))
         == Range(IsoDate(ym.year, ym.month, 1), IsoDate(next.year, next.month, 1),
                  MonthName(ym.month) + " " + Digits(ym.year, 4))
  {
    ParseFormatMonth(ym);
  }

  lemma MonthThirteenExample()
    ensures MonthRange("2025-13") == Failure(InvalidMonth)
  {
    OneDigitMonthThenMore("2025-13");
  }

  /** After `1`, a digit other than 0 to 2 leaves a character unconsumed. */
  lemma OneDigitMonthThenMore(s: string)
    requires |s| == 7 && AllDigits(s[..4]) && s[4] == '-'
    requires s[5] == '1' && '3' <= s[6] <= '9'
    ensures ParseMonth(s).None?
  {
    var rest := s[5..];
    assert rest[0] == '1' && rest[1] == s[6] && |rest| == 2;
  }
}
