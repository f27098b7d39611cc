/**
 * Date strings "YYYY-MM-DD" and the calendar arithmetic behind them
 * (src/utils/dateUtils.ts). JavaScript's `Date` counts days in the proleptic
 * Gregorian calendar; here a date is a (year, month, day) triple and moving by
 * n days is n single steps to the next or previous calendar day.
 */
module DateUtils {
  import opened Types
  import opened Strings

  datatype Ymd = Ymd(year: int, month: int, day: int)

  predicate IsLeapYear(y: int) {
    y % 4 == 0 && (y % 100 != 0 || y % 400 == 0)
  }

  /** The Gregorian length of month `m` (1-based) of year `y`. */
  function DaysInMonth(y: int, m: int): (n: int)
    requires 1 <= m <= 12
    ensures 28 <= n <= 31
    ensures m == 2 ==> (n == 29 <==> IsLeapYear(y))
    ensures m != 2 ==> (n == 30 <==> m in {4, 6, 9, 11})
  {
    if m == 2 then (if IsLeapYear(y) then 29 else 28)
    else if m == 4 || m == 6 || m == 9 || m == 11 then 30
    else 31
  }

  /** A day that exists in the calendar. */
  predicate Valid(d: Ymd) {
    1 <= d.month <= 12 && 1 <= d.day <= DaysInMonth(d.year, d.month)
  }

  /** Calendar order. */
  predicate Before(a: Ymd, b: Ymd) {
    a.year < b.year || (a.year == b.year && (a.month < b.month || (a.month == b.month && a.day < b.day)))
  }

  function NextDay(d: Ymd): (r: Ymd)
    requires Valid(d)
    ensures Valid(r) && Before(d, r)
  {
    if d.day < DaysInMonth(d.year, d.month) then d.(day := d.day + 1)
    else if d.month < 12 then Ymd(d.year, d.month + 1, 1)
    else Ymd(d.year + 1, 1, 1)
  }

  function PrevDay(d: Ymd): (r: Ymd)
    requires Valid(d)
    ensures Valid(r) && Before(r, d)
  {
    if d.day > 1 then d.(day := d.day - 1)
    else if d.month > 1 then Ymd(d.year, d.month - 1, DaysInMonth(d.year, d.month - 1))
    else Ymd(d.year - 1, 12, 31)
  }

  /** NextDay is the immediate successor: no day of the calendar lies strictly between. */
  lemma NextDayIsSuccessor(d: Ymd, e: Ymd)
    requires Valid(d) && Valid(e)
    ensures Before(d, e) <==> e == NextDay(d) || Before(NextDay(d), e)
  {
  }

  lemma PrevNextInverse(d: Ymd)
    requires Valid(d)
    ensures PrevDay(NextDay(d)) == d
    ensures NextDay(PrevDay(d)) == d
  {
  }

  /** The day `n` days after `d` (before it, for negative `n`). */
  function Shift(d: Ymd, n: int): (r: Ymd)
    requires Valid(d)
    ensures Valid(r)
    decreases if n < 0 then -n else n
  {
    if n == 0 then d
    else if n > 0 then Shift(NextDay(d), n - 1)
    else Shift(PrevDay(d), n + 1)
  }

  lemma ShiftFromNext(d: Ymd, n: int)
    requires Valid(d)
    ensures Shift(NextDay(d), n) == Shift(d, n + 1)
  {
    if n + 1 <= 0 {
      PrevNextInverse(d);
    }
  }

  lemma ShiftFromPrev(d: Ymd, n: int)
    requires Valid(d)
    ensures Shift(PrevDay(d), n) == Shift(d, n - 1)
  {
    if n - 1 >= 0 {
      PrevNextInverse(d);
    }
  }

  /** Moving a days and then b days is moving a + b days. */
  lemma {:induction false} ShiftAdd(d: Ymd, a: int, b: int)
    requires Valid(d)
    ensures Shift(Shift(d, a), b) == Shift(d, a + b)
    decreases if a < 0 then -a else a
  {
    if a > 0 {
      ShiftAdd(NextDay(d), a - 1, b);
      ShiftFromNext(d, a - 1 + b);
    } else if a < 0 {
      ShiftAdd(PrevDay(d), a + 1, b);
      ShiftFromPrev(d, a + 1 + b);
    }
  }

  /** Within a month, moving k days adds k to the day. */
  lemma {:induction false} ShiftWithinMonth(d: Ymd, k: nat)
    requires Valid(d) && d.day + k <= DaysInMonth(d.year, d.month)
    ensures Shift(d, k) == d.(day := d.day + k)
    decreases k
  {
    if k > 0 {
      ShiftWithinMonth(NextDay(d), k - 1);
    }
  }

  /**
   * `new Date(y, m - 1, d)` for integer arguments: a year 0..99 is read as
   * 1900 + y, the month index carries into the year, and the day rolls over
   * into the neighbouring months in either direction.
   */
  function MakeDate(y: int, m: int, d: int): (r: Ymd)
    ensures Valid(r)
  {
    var fullYear := if 0 <= y <= 99 then 1900 + y else y;
    var monthIndex := m - 1;
    Shift(Ymd(fullYear + monthIndex / 12, monthIndex % 12 + 1, 1), d - 1)
  }

  /** A calendar date outside the years 0..99 is rebuilt unchanged. */
  lemma MakeDateOfValid(d: Ymd)
    requires Valid(d) && !(0 <= d.year <= 99)
    ensures MakeDate(d.year, d.month, d.day) == d
  {
    ShiftWithinMonth(Ymd(d.year, d.month, 1), d.day - 1);
  }

  /** A day past the end of its month rolls into the next month, and past December into the next year. */
  lemma MakeDateRollsOver(y: int, m: int)
    requires 1 <= m <= 12 && !(0 <= y <= 99)
    ensures MakeDate(y, m, DaysInMonth(y, m) + 1) == if m == 12 then Ymd(y + 1, 1, 1) else Ymd(y, m + 1, 1)
  {
    var n := DaysInMonth(y, m);
    var first, last := Ymd(y, m, 1), Ymd(y, m, n);
    assert MakeDate(y, m, n + 1) == Shift(first, n) by {
      MakeDateInMonth(y, m, n + 1);
    }
    assert Shift(first, n) == Shift(last, 1) by {
      ShiftWithinMonth(first, n - 1);
      ShiftAdd(first, n - 1, 1);
    }
    assert Shift(last, 1) == (if m == 12 then Ymd(y + 1, 1, 1) else Ymd(y, m + 1, 1)) by {
      assert Shift(last, 1) == NextDay(last);
    }
  }

  /** A month past December carries into the following year. */
  lemma MonthCarries(y: int, m: int, d: int)
    requires 1 <= m <= 12 && !(-1 <= y <= 99)
    ensures MakeDate(y, m + 12, d) == MakeDate(y + 1, m, d)
  {
    assert (m + 11) / 12 == 1 && (m + 11) % 12 + 1 == m;
    MakeDateInMonth(y + 1, m, d);
  }

  /** Month 0 borrows from the year: it is December of the year before. */
  lemma MonthBorrows(y: int, d: int)
    requires !(0 <= y <= 100)
    ensures MakeDate(y, 0, d) == MakeDate(y - 1, 12, d)
  {
    assert -1 / 12 == -1 && -1 % 12 + 1 == 12;
    MakeDateInMonth(y - 1, 12, d);
  }

  /** December 32 is January 1 of the next year. */
  lemma DecemberRolls(y: int)
    requires !(0 <= y <= 99)
    ensures MakeDate(y, 12, 32) == Ymd(y + 1, 1, 1)
  {
    MakeDateRollsOver(y, 12);
  }

  /** For a month 1..12, `new Date(y, m - 1, d)` counts d - 1 days from the first of that month. */
  lemma MakeDateInMonth(y: int, m: int, d: int)
    requires 1 <= m <= 12 && !(0 <= y <= 99)
    ensures MakeDate(y, m, d) == Shift(Ymd(y, m, 1), d - 1)
  {
    assert (m - 1) / 12 == 0 && (m - 1) % 12 + 1 == m;
  }

  /** `new Date(y, m, 0).getDate()`: day 0 of the following month is the last day of month m. */
  function LastDayViaDate(y: int, m: int): int {
    MakeDate(y, m + 1, 0).day
  }

  lemma LastDayViaDateIsMonthLength(y: int, m: int)
    requires 1 <= m <= 12 && !(0 <= y <= 99)
    ensures LastDayViaDate(y, m) == DaysInMonth(y, m)
  {
    var first := if m == 12 then Ymd(y + 1, 1, 1) else Ymd(y, m + 1, 1);
    assert MakeDate(y, m + 1, 0) == Shift(first, -1);
    assert Shift(first, -1) == Shift(PrevDay(first), 0);
  }

  // ---------------------------------------------------------------------------
  // Formatting and parsing

  /** `String(n)` for any integer: a '-' exactly for a negative n, then the decimal digits of |n|. */
  function IntToString(n: int): (s: string)
    ensures n >= 0 ==> s == NatToString(n)
    ensures s != [] && (s[0] == '-' <==> n < 0)
    ensures n < 0 ==> AllDigits(s[1..]) && DigitsValue(s[1..]) == -n
  {
    if n < 0 then "-" + NatToString(-n) else NatToString(n)
  }

  /** formatDate: the year as `String` does it (no padding), month and day padded to two digits. */
  function FormatDate(d: Ymd): (s: string)
    requires Valid(d)
  {
    IntToString(d.year) + "-" + PadStart2(NatToString(d.month)) + "-" + PadStart2(NatToString(d.day))
  }

  /** For a four-digit year the text is "YYYY-MM-DD": each field is digits holding that field's value. */
  lemma FormatDateShape(d: Ymd)
    requires Valid(d) && 1000 <= d.year <= 9999
    ensures var s := FormatDate(d);
      && |s| == 10 && s[4] == '-' && s[7] == '-'
      && AllDigits(s[..4]) && DigitsValue(s[..4]) == d.year
      && AllDigits(s[5..7]) && DigitsValue(s[5..7]) == d.month
      && AllDigits(s[8..]) && DigitsValue(s[8..]) == d.day
  {
    var y, m, dd := NatToString(d.year), PadStart2(NatToString(d.month)), PadStart2(NatToString(d.day));
    NatToStringLength(d.year);
    TwoDigitField(d.month);
    TwoDigitField(d.day);
    var s := FormatDate(d);
    assert s == y + "-" + m + "-" + dd;
    assert s[..4] == y && s[5..7] == m && s[8..] == dd;
  }

  /** What `formatDate` gives for an Invalid Date. */
  const InvalidDateText: string := "NaN-NaN-NaN"

  /**
   * `Number(part)` for a part of a date string: white space around it is ignored,
   * a blank part is 0, an optional '+' may precede decimal digits; None stands
   * for NaN.
   */
  function ToNumber(s: string): (r: Option<int>)
    ensures AllDigits(s) && s != [] ==> r == Some(DigitsValue(s))
  {
    var t := Trim(s);
    if t == "" then Some(0)
    else if AllDigits(t) then Some(DigitsValue(t))
    else if t[0] == '+' && |t| > 1 && AllDigits(t[1..]) then Some(DigitsValue(t[1..]))
    else None
  }

  /** parseDate: the first three '-'-separated parts through `Number`, then `new Date(y, m - 1, d)`. */
  function ParseDate(s: string): (r: Option<Ymd>)
    ensures r.Some? ==> Valid(r.value)
  {
    var parts := Split(s, '-');
    if |parts| < 3 then None
    else
      match (ToNumber(parts[0]), ToNumber(parts[1]), ToNumber(parts[2]))
      case (Some(y), Some(m), Some(d)) => Some(MakeDate(y, m, d))
      case _ => None
  }

  /** addDays: parse, move by `days`, format; an unparsable string yields the Invalid Date text. */
  function AddDays(s: string, days: int): (r: string)
    ensures ParseDate(s).None? ==> r == InvalidDateText
  {
    match ParseDate(s)
    case None => InvalidDateText
    case Some(d) => FormatDate(Shift(d, days))
  }

  /** isSameDate: plain string equality. */
  predicate IsSameDate(a: string, b: string) {
    a == b
  }

  // ---------------------------------------------------------------------------
  // Properties

  lemma TrimDigits(s: string)
    requires s != [] && AllDigits(s)
    ensures Trim(s) == s
  {
    TrimUnchanged(s);
  }

  /** Splitting three '-'-free pieces joined by '-' gives the pieces back. */
  lemma SplitThree(y: string, m: string, d: string)
    requires '-' !in y && '-' !in m && '-' !in d
    ensures Split(y + "-" + m + "-" + d, '-') == [y, m, d]
  {
    var tail := m + ['-'] + d;
    assert y + "-" + m + "-" + d == y + ['-'] + tail;
    SplitAt(m, '-', d);
    SplitAt(y, '-', tail);
  }

  /** Three digit strings joined by '-' parse to the date `new Date` builds from their values. */
  lemma ParseDigitParts(y: string, m: string, d: string)
    requires y != [] && m != [] && d != []
    requires AllDigits(y) && AllDigits(m) && AllDigits(d)
    ensures ParseDate(y + "-" + m + "-" + d)
         == Some(MakeDate(DigitsValue(y), DigitsValue(m), DigitsValue(d)))
  {
    assert !IsDigit('-');
    SplitThree(y, m, d);
    assert ToNumber(y) == Some(DigitsValue(y));
    assert ToNumber(m) == Some(DigitsValue(m));
    assert ToNumber(d) == Some(DigitsValue(d));
  }

  /** Formatting then parsing gives the date back, for every year from 100 on. */
  lemma ParseFormatRoundTrip(d: Ymd)
    requires Valid(d) && d.year >= 100
    ensures ParseDate(FormatDate(d)) == Some(d)
  {
    var mm := PadStart2(NatToString(d.month));
    var dd := PadStart2(NatToString(d.day));
    PadDigits(NatToString(d.month));
    PadDigits(NatToString(d.day));
    ParseDigitParts(NatToString(d.year), mm, dd);
    MakeDateOfValid(d);
  }

  /** addDays(s, 0) == s for every formatted calendar date from year 100 on. */
  lemma AddZeroDays(d: Ymd)
    requires Valid(d) && d.year >= 100
    ensures AddDays(FormatDate(d), 0) == FormatDate(d)
  {
    ParseFormatRoundTrip(d);
  }

  /** addDays(s, 1) is the next calendar day. */
  lemma AddOneDay(d: Ymd)
    requires Valid(d) && d.year >= 100
    ensures AddDays(FormatDate(d), 1) == FormatDate(NextDay(d))
  {
    ParseFormatRoundTrip(d);
  }

  /**
   * addDays(addDays(s, a), b) == addDays(s, a + b) whenever s parses and the
   * intermediate date keeps a year from 100 on (so that it reads back unchanged).
   */
  lemma AddDaysCompose(s: string, a: int, b: int)
    requires ParseDate(s).Some? && Shift(ParseDate(s).value, a).year >= 100
    ensures AddDays(AddDays(s, a), b) == AddDays(s, a + b)
  {
    var d := ParseDate(s).value;
    ParseFormatRoundTrip(Shift(d, a));
    ShiftAdd(d, a, b);
  }

  /** A spelling of a date whose month is not padded to two digits. */
  function UnpaddedMonthSpelling(d: Ymd): string
    requires Valid(d) && d.year >= 0
  {
    NatToString(d.year) + "-" + NatToString(d.month) + "-" + PadStart2(NatToString(d.day))
  }

  /** The unpadded spelling parses to the same day, yet isSameDate tells it apart from the padded one. */
  lemma UnpaddedSpellingDiffers(d: Ymd)
    requires Valid(d) && d.year >= 100 && d.month < 10
    ensures ParseDate(UnpaddedMonthSpelling(d)) == Some(d)
    ensures !IsSameDate(UnpaddedMonthSpelling(d), FormatDate(d))
  {
    var y, m, dd := NatToString(d.year), NatToString(d.month), PadStart2(NatToString(d.day));
    NatToStringLength(d.month);
    TwoDigitField(d.month);
    TwoDigitField(d.day);
    assert |UnpaddedMonthSpelling(d)| + 1 == |FormatDate(d)|;
    ParseDigitParts(y, m, dd);
    MakeDateOfValid(d);
  }

  /** On formatted calendar days, isSameDate holds exactly for the same day. */
  lemma SameDateIffSameDay(d: Ymd, e: Ymd)
    requires Valid(d) && Valid(e) && d.year >= 100 && e.year >= 100
    ensures IsSameDate(FormatDate(d), FormatDate(e)) <==> d == e
  {
    ParseFormatRoundTrip(d);
    ParseFormatRoundTrip(e);
  }

  /** The two-digit fields of a formatted date. */
  lemma TwoDigitField(n: nat)
    requires 1 <= n <= 99
    ensures |PadStart2(NatToString(n))| == 2 && AllDigits(PadStart2(NatToString(n)))
    ensures DigitsValue(PadStart2(NatToString(n))) == n
  {
    NatToStringLength(n);
    PadDigits(NatToString(n));
  }

  /** Comparing "y-m-d" strings whose fields have equal widths compares field by field. */
  lemma StrLtFields(y1: string, m1: string, a1: string, y2: string, m2: string, a2: string)
    requires |y1| == |y2| && |m1| == |m2|
    ensures StrLt(y1 + "-" + m1 + "-" + a1, y2 + "-" + m2 + "-" + a2)
        <==> StrLt(y1, y2) || (y1 == y2 && (StrLt(m1, m2) || (m1 == m2 && StrLt(a1, a2))))
  {
    var t1, t2 := m1 + "-" + a1, m2 + "-" + a2;
    assert y1 + "-" + m1 + "-" + a1 == y1 + ("-" + t1);
    assert y2 + "-" + m2 + "-" + a2 == y2 + ("-" + t2);
    StrLtAppend(y1, "-" + t1, y2, "-" + t2);
    StrLtAppend("-", t1, "-", t2);
    StrLtIrreflexive("-");
    assert t1 == m1 + ("-" + a1) && t2 == m2 + ("-" + a2);
    StrLtAppend(m1, "-" + a1, m2, "-" + a2);
    StrLtAppend("-", a1, "-", a2);
  }

  /** For four-digit years, string order of formatted dates is calendar order. */
  lemma FormatOrder(d: Ymd, e: Ymd)
    requires Valid(d) && Valid(e)
    requires 1000 <= d.year <= 9999 && 1000 <= e.year <= 9999
    ensures StrLt(FormatDate(d), FormatDate(e)) <==> Before(d, e)
  {
    var y1, y2 := NatToString(d.year), NatToString(e.year);
    var m1, m2 := PadStart2(NatToString(d.month)), PadStart2(NatToString(e.month));
    var a1, a2 := PadStart2(NatToString(d.day)), PadStart2(NatToString(e.day));
    NatToStringLength(d.year);
    NatToStringLength(e.year);
    TwoDigitField(d.month);
    TwoDigitField(e.month);
    TwoDigitField(d.day);
    TwoDigitField(e.day);
    DigitsOrder(y1, y2);
    DigitsOrder(m1, m2);
    DigitsOrder(a1, a2);
    StrLtFields(y1, m1, a1, y2, m2, a2);
  }
}
