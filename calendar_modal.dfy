/**
 * The calendar picker (src/components/CalendarModal.tsx): year, month and day
 * fields moved by arrow buttons, with the year kept within 2025..2030.
 *
 * The fields are React state. A handler reads them as they were at the last
 * render and only queues setter calls; when the handler returns, the queued
 * values are committed, the last call of each setter winning. The class keeps
 * the rendered fields and the queued values apart so that this is modelled
 * step by step.
 */
module CalendarModal {
  import opened Types
  import opened Strings
  import opened DateUtils

  const MinYear: int := 2025
  const MaxYear: int := 2030

  /** The three picker fields. */
  datatype Picker = Picker(year: int, month: int, day: int)

  /** Setter calls queued during one handler: `None` where the setter was not called. */
  datatype Writes = Writes(year: Option<int>, month: Option<int>, day: Option<int>)

  const NoWrites: Writes := Writes(None, None, None)

  /** The arrow buttons; each passes its increment to the handler. */
  datatype Button = YearArrow(inc: int) | MonthArrow(inc: int) | DayArrow(inc: int)

  /** getDaysInMonth: `new Date(year, month, 0).getDate()`. */
  function GetDaysInMonth(year: int, month: int): (n: int)
    ensures 1 <= n <= 31
  {
    LastDayViaDate(year, month)
  }

  /** For the picker's years it is the Gregorian month length. */
  lemma DaysInMonthIsGregorian(year: int, month: int)
    requires 1 <= month <= 12 && year >= 100
    ensures GetDaysInMonth(year, month) == DaysInMonth(year, month)
  {
    LastDayViaDateIsMonthLength(year, month);
  }

  function AsDate(p: Picker): Ymd {
    Ymd(p.year, p.month, p.day)
  }

  /** A picker state naming an existing day of an allowed year. */
  predicate InRange(p: Picker) {
    MinYear <= p.year <= MaxYear && Valid(AsDate(p))
  }

  // ---------------------------------------------------------------------------
  // parseDate and handleSave

  /**
   * parseDate: an empty string stands for today; otherwise the first three
   * '-'-separated parts through `Number`, with no range check. None where a
   * part is not a number (NaN) or missing.
   */
  function ParseSelected(dateStr: string, today: Ymd): (r: Option<Picker>)
    ensures dateStr == "" ==> r == Some(Picker(today.year, today.month, today.day))
    ensures dateStr != "" && |Split(dateStr, '-')| < 3 ==> r == None
  {
    if dateStr == "" then Some(Picker(today.year, today.month, today.day))
    else
      var parts := Split(dateStr, '-');
      if |parts| < 3 then None
      else
        match (ToNumber(parts[0]), ToNumber(parts[1]), ToNumber(parts[2]))
        case (Some(y), Some(m), Some(d)) => Some(Picker(y, m, d))
        case _ => None
  }

  /** Three digit strings joined by '-' open the picker on their values, unchecked. */
  lemma ParseSelectedParts(y: string, m: string, d: string, today: Ymd)
    requires y != [] && m != [] && d != []
    requires AllDigits(y) && AllDigits(m) && AllDigits(d)
    ensures ParseSelected(y + "-" + m + "-" + d, today) == Some(Picker(DigitsValue(y), DigitsValue(m), DigitsValue(d)))
  {
    assert !IsDigit('-');
    SplitThree(y, m, d);
  }

  /** The picker opens on the day formatDate wrote. */
  lemma ParseSelectedOfFormatted(d: Ymd, today: Ymd)
    requires Valid(d) && d.year >= 0
    ensures ParseSelected(FormatDate(d), today) == Some(Picker(d.year, d.month, d.day))
  {
    var y, mm, dd := NatToString(d.year), PadStart2(NatToString(d.month)), PadStart2(NatToString(d.day));
    PadDigits(NatToString(d.month));
    PadDigits(NatToString(d.day));
    assert FormatDate(d) == y + "-" + mm + "-" + dd;
    ParseSelectedParts(y, mm, dd, today);
  }

  /** handleSave's text: the year as `String` writes it, month and day padded to two characters. */
  function SaveText(p: Picker): (s: string)
    ensures Valid(AsDate(p)) ==> s == FormatDate(AsDate(p))
  {
    IntToString(p.year) + "-" + PadStart2(IntToString(p.month)) + "-" + PadStart2(IntToString(p.day))
  }

  /** What handleSave emits reads back, through dateUtils' parseDate, as the picked day. */
  lemma SaveTextReadsBack(p: Picker)
    requires InRange(p)
    ensures ParseDate(SaveText(p)) == Some(AsDate(p))
  {
    ParseFormatRoundTrip(AsDate(p));
  }

  // ---------------------------------------------------------------------------
  // What one button press does, as a whole

  /** Where changeMonth moves (year, month), or None when the wrap would leave 2025..2030. */
  function MonthTarget(p: Picker, inc: int): (r: Option<(int, int)>)
    ensures r.Some? && 1 <= p.month + inc <= 12 ==> r.value == (p.year, p.month + inc)
    ensures r.Some? && p.month + inc > 12 ==> r.value == (p.year + 1, 1) && p.year + 1 <= MaxYear
    ensures r.Some? && p.month + inc < 1 ==> r.value == (p.year - 1, 12) && p.year - 1 >= MinYear
    ensures r.None? <==> (p.month + inc > 12 && p.year + 1 > MaxYear) || (p.month + inc < 1 && p.year - 1 < MinYear)
  {
    var newMonth := p.month + inc;
    if newMonth > 12 then (if p.year + 1 <= MaxYear then Some((p.year + 1, 1)) else None)
    else if newMonth < 1 then (if p.year - 1 >= MinYear then Some((p.year - 1, 12)) else None)
    else Some((p.year, newMonth))
  }

  /** `if (day > max) setSelectedDay(max)`: the day lowered to a month length. */
  function Clamp(day: int, max: int): (r: int)
    ensures r <= max && r <= day && (r == day || r == max)
  {
    if day > max then max else day
  }

  /** The committed state after one press, last setter call winning. */
  function Pressed(p: Picker, b: Button): (r: Picker)
    ensures MinYear <= p.year <= MaxYear && 1 <= p.month <= 12 ==> MinYear <= r.year <= MaxYear && 1 <= r.month <= 12
  {
    match b
    case YearArrow(inc) =>
      if MinYear <= p.year + inc <= MaxYear then p.(year := p.year + inc) else p
    case MonthArrow(inc) =>
      (match MonthTarget(p, inc)
       case None => p
       case Some((y, m)) => Picker(y, m, Clamp(p.day, GetDaysInMonth(y, m))))
    case DayArrow(inc) =>
      var newDay := p.day + inc;
      var maxDay := GetDaysInMonth(p.year, p.month);
      if inc > 0 && newDay > maxDay then
        (match MonthTarget(p, 1)
         case None => p.(day := 1)
         case Some((y, m)) => Picker(y, m, if p.day > GetDaysInMonth(y, m) then GetDaysInMonth(y, m) else 1))
      else if inc < 0 && newDay < 1 then
        var prevMax := GetDaysInMonth(if p.month == 1 then p.year - 1 else p.year, if p.month == 1 then 12 else p.month - 1);
        (match MonthTarget(p, -1)
         case None => p.(day := prevMax)
         case Some((y, m)) => Picker(y, m, if p.day > GetDaysInMonth(y, m) then GetDaysInMonth(y, m) else prevMax))
      else if 1 <= newDay <= maxDay then p.(day := newDay)
      else p
  }

  function Commit(p: Picker, w: Writes): Picker {
    Picker(if w.year.Some? then w.year.value else p.year,
           if w.month.Some? then w.month.value else p.month,
           if w.day.Some? then w.day.value else p.day)
  }

  // ---------------------------------------------------------------------------
  // Properties of a press

  /** The year arrow moves only the year, and only within 2025..2030. */
  lemma YearArrowMovesOnlyYear(p: Picker, inc: int)
    requires MinYear <= p.year <= MaxYear
    ensures var r := Pressed(p, YearArrow(inc));
      && r.month == p.month && r.day == p.day
      && (r.year == p.year + inc <==> MinYear <= p.year + inc <= MaxYear)
      && (r.year != p.year + inc ==> r.year == p.year)
  {
  }

  /** Every press keeps the year within 2025..2030 and the month within 1..12. */
  lemma PressKeepsBounds(p: Picker, b: Button)
    requires MinYear <= p.year <= MaxYear && 1 <= p.month <= 12
    ensures var r := Pressed(p, b);
      MinYear <= r.year <= MaxYear && 1 <= r.month <= 12
  {
    match b {
      case YearArrow(_) =>
      case MonthArrow(inc) =>
        var t := MonthTarget(p, inc);
      case DayArrow(inc) =>
        var t := MonthTarget(p, 1);
        var u := MonthTarget(p, -1);
    }
  }

  /**
   * An unblocked month press lowers the day to the new month's length and
   * keeps it otherwise, so a picked day stays a day of the calendar.
   */
  lemma MonthArrowClamps(p: Picker, inc: int)
    requires InRange(p) && MonthTarget(p, inc).Some?
    ensures var r := Pressed(p, MonthArrow(inc));
      && (r.year, r.month) == MonthTarget(p, inc).value
      && r.day == (if p.day > DaysInMonth(r.year, r.month) then DaysInMonth(r.year, r.month) else p.day)
      && InRange(r)
  {
    var (y, m) := MonthTarget(p, inc).value;
    DaysInMonthIsGregorian(y, m);
  }

  /** A blocked month press changes nothing. */
  lemma MonthArrowBlocked(p: Picker, inc: int)
    requires MonthTarget(p, inc).None?
    ensures Pressed(p, MonthArrow(inc)) == p
  {
  }

  /** Day presses keep a picked day a day of the calendar. */
  lemma DayArrowKeepsRange(p: Picker, inc: int)
    requires InRange(p)
    ensures InRange(Pressed(p, DayArrow(inc)))
  {
    DaysInMonthIsGregorian(p.year, p.month);
    var r := Pressed(p, DayArrow(inc));
    if inc > 0 && p.day + inc > DaysInMonth(p.year, p.month) {
      var t := MonthTarget(p, 1);
      if t.Some? {
        DaysInMonthIsGregorian(t.value.0, t.value.1);
      }
    } else if inc < 0 && p.day + inc < 1 {
      var t := MonthTarget(p, -1);
      var py, pm := if p.month == 1 then p.year - 1 else p.year, if p.month == 1 then 12 else p.month - 1;
      DaysInMonthIsGregorian(py, pm);
      if t.Some? {
        assert t.value == (py, pm);
      }
    }
  }

  /** Moving forward inside the month is the next calendar day. */
  lemma DayForwardWithinMonth(p: Picker)
    requires InRange(p) && p.day < DaysInMonth(p.year, p.month)
    ensures AsDate(Pressed(p, DayArrow(1))) == NextDay(AsDate(p))
  {
    DaysInMonthIsGregorian(p.year, p.month);
  }

  /**
   * Moving backward is the previous calendar day, also from day 1 to the
   * last day of the previous month, except on the first day of 2025.
   */
  lemma DayBackwardIsPrevDay(p: Picker)
    requires InRange(p) && !(p.year == MinYear && p.month == 1 && p.day == 1)
    ensures AsDate(Pressed(p, DayArrow(-1))) == PrevDay(AsDate(p))
  {
    DaysInMonthIsGregorian(p.year, p.month);
    if p.day == 1 {
      var py, pm := if p.month == 1 then p.year - 1 else p.year, if p.month == 1 then 12 else p.month - 1;
      DaysInMonthIsGregorian(py, pm);
      assert MonthTarget(p, -1) == Some((py, pm));
    }
  }

  /** On the first day of 2025 the backward press stays in January and jumps to its last day. */
  lemma BackwardFromFirstDayOf2025()
    ensures Pressed(Picker(2025, 1, 1), DayArrow(-1)) == Picker(2025, 1, 31)
  {
    DaysInMonthIsGregorian(2024, 12);
    DaysInMonthIsGregorian(2025, 1);
  }

  /** The year arrow does not lower the day: Feb 29, 2028 becomes the non-existent Feb 29, 2029. */
  lemma YearArrowKeepsLeapDay()
    ensures Pressed(Picker(2028, 2, 29), YearArrow(1)) == Picker(2029, 2, 29)
    ensures !Valid(Ymd(2029, 2, 29))
  {
  }

  /**
   * As written, a forward press past the month's end commits the day that
   * changeMonth(1) computes from the rendered day, not the queued 1: the
   * next month's length when the rendered day exceeds it, 1 otherwise.
   */
  lemma ForwardPastMonthEnd(p: Picker)
    requires InRange(p) && p.day == DaysInMonth(p.year, p.month) && MonthTarget(p, 1).Some?
    ensures var (y, m) := MonthTarget(p, 1).value;
      Pressed(p, DayArrow(1)) == Picker(y, m, if p.day > DaysInMonth(y, m) then DaysInMonth(y, m) else 1)
  {
    DaysInMonthIsGregorian(p.year, p.month);
    var (y, m) := MonthTarget(p, 1).value;
    DaysInMonthIsGregorian(y, m);
  }

  /** January 31, 2026 goes forward to February 28, not to February 1. */
  lemma ForwardFromJanuary31()
    ensures Pressed(Picker(2026, 1, 31), DayArrow(1)) == Picker(2026, 2, 28)
    ensures NextDay(Ymd(2026, 1, 31)) == Ymd(2026, 2, 1)
  {
    DaysInMonthIsGregorian(2026, 1);
    DaysInMonthIsGregorian(2026, 2);
  }

  /** December 31, 2030 goes forward to December 1, 2030. */
  lemma ForwardFromLastDay()
    ensures Pressed(Picker(2030, 12, 31), DayArrow(1)) == Picker(2030, 12, 1)
  {
    DaysInMonthIsGregorian(2030, 12);
  }

  /**
   * The day press as its comments describe it: past the month's end to day 1
   * of the next month, before day 1 to the previous month's last day, and no
   * move at all where the year range ends.
   */
  function IntendedDayPress(p: Picker, inc: int): (r: Picker)
    requires InRange(p) && (inc == 1 || inc == -1)
    ensures InRange(r)
  {
    DaysInMonthIsGregorian(p.year, p.month);
    if inc == 1 then
      if p.year == MaxYear && p.month == 12 && p.day == 31 then p
      else
        var n := NextDay(AsDate(p));
        Picker(n.year, n.month, n.day)
    else
      if p.year == MinYear && p.month == 1 && p.day == 1 then p
      else
        var n := PrevDay(AsDate(p));
        Picker(n.year, n.month, n.day)
  }

  /** Corrected: forward from a month's last day lands on day 1 of the month changeMonth(1) moves to. */
  lemma IntendedForwardPastMonthEnd(p: Picker)
    requires InRange(p) && p.day == DaysInMonth(p.year, p.month) && MonthTarget(p, 1).Some?
    ensures var (y, m) := MonthTarget(p, 1).value;
      IntendedDayPress(p, 1) == Picker(y, m, 1)
  {
  }

  /** Corrected: at either end of the year range a day press that would leave it does not move. */
  lemma IntendedStaysAtRangeEnds()
    ensures IntendedDayPress(Picker(MinYear, 1, 1), -1) == Picker(MinYear, 1, 1)
    ensures IntendedDayPress(Picker(MaxYear, 12, 31), 1) == Picker(MaxYear, 12, 31)
  {
    DaysInMonthIsGregorian(MinYear, 1);
    DaysInMonthIsGregorian(MaxYear, 12);
  }

  /**
   * The intended press and the written one agree everywhere except forward
   * from a month's last day and backward from January 1, 2025.
   */
  lemma IntendedAgreesElsewhere(p: Picker, inc: int)
    requires InRange(p) && (inc == 1 || inc == -1)
    requires inc == 1 ==> p.day < DaysInMonth(p.year, p.month)
    requires inc == -1 ==> !(p.year == MinYear && p.month == 1 && p.day == 1)
    ensures IntendedDayPress(p, inc) == Pressed(p, DayArrow(inc))
  {
    if inc == 1 {
      DayForwardWithinMonth(p);
    } else {
      DayBackwardIsPrevDay(p);
    }
  }

  // ---------------------------------------------------------------------------
  // The component

  class Calendar {
    var selectedYear: int
    var selectedMonth: int
    var selectedDay: int
    /** Setter calls made by the running handler, not yet rendered. */
    var queued: Writes

    function Shown(): Picker
      reads this
    {
      Picker(selectedYear, selectedMonth, selectedDay)
    }

    /** The component mounted on the fields parseDate gave. */
    constructor (initial: Picker)
      ensures Shown() == initial && queued == NoWrites
    {
      selectedYear, selectedMonth, selectedDay := initial.year, initial.month, initial.day;
      queued := NoWrites;
    }

    method SetSelectedYear(v: int)
      modifies this
      ensures Shown() == old(Shown()) && queued == old(queued).(year := Some(v))
    {
      queued := queued.(year := Some(v));
    }

    method SetSelectedMonth(v: int)
      modifies this
      ensures Shown() == old(Shown()) && queued == old(queued).(month := Some(v))
    {
      queued := queued.(month := Some(v));
    }

    method SetSelectedDay(v: int)
      modifies this
      ensures Shown() == old(Shown()) && queued == old(queued).(day := Some(v))
    {
      queued := queued.(day := Some(v));
    }

    /** changeYear: the year is queued only when it stays within 2025..2030. */
    method ChangeYear(increment: int)
      modifies this
      ensures Shown() == old(Shown())
      ensures queued == if MinYear <= selectedYear + increment <= MaxYear
                        then old(queued).(year := Some(selectedYear + increment)) else old(queued)
    {
      var newYear := selectedYear + increment;
      if newYear >= MinYear && newYear <= MaxYear {
        SetSelectedYear(newYear);
      }
    }

    /**
     * changeMonth: wraps 12 -> 1 and 1 -> 12 carrying the year, gives up when
     * the year would leave its range, and lowers the rendered day to the new
     * month's length.
     */
    method ChangeMonth(increment: int)
      modifies this
      ensures Shown() == old(Shown())
      ensures MonthTarget(Shown(), increment).None? ==> queued == old(queued)
      ensures MonthTarget(Shown(), increment).Some? ==>
        var (y, m) := MonthTarget(Shown(), increment).value;
        && queued.year == (if y != selectedYear then Some(y) else old(queued).year)
        && queued.month == Some(m)
        && queued.day == (if selectedDay > GetDaysInMonth(y, m) then Some(GetDaysInMonth(y, m)) else old(queued).day)
    {
      var newMonth := selectedMonth + increment;
      var newYear := selectedYear;
      if newMonth > 12 {
        newMonth := 1;
        newYear := newYear + 1;
        if newYear <= MaxYear {
          SetSelectedYear(newYear);
        } else {
          return;
        }
      } else if newMonth < 1 {
        newMonth := 12;
        newYear := newYear - 1;
        if newYear >= MinYear {
          SetSelectedYear(newYear);
        } else {
          return;
        }
      }
      SetSelectedMonth(newMonth);
      var newMaxDay := GetDaysInMonth(newYear, newMonth);
      if selectedDay > newMaxDay {
        SetSelectedDay(newMaxDay);
      }
    }

    /**
     * changeDay: within the month the day moves; past the end it queues day 1
     * and changeMonth(1); before day 1 it queues the previous month's length
     * and changeMonth(-1).
     */
    method ChangeDay(increment: int)
      modifies this
      ensures Shown() == old(Shown())
      ensures old(queued) == NoWrites ==> Commit(Shown(), queued) == Pressed(Shown(), DayArrow(increment))
    {
      var maxDay := GetDaysInMonth(selectedYear, selectedMonth);
      var newDay := selectedDay + increment;
      if increment > 0 && newDay > maxDay {
        SetSelectedDay(1);
        ChangeMonth(1);
      } else if increment < 0 && newDay < 1 {
        var prevMonth := if selectedMonth == 1 then 12 else selectedMonth - 1;
        var prevYear := if selectedMonth == 1 then selectedYear - 1 else selectedYear;
        var prevMaxDay := GetDaysInMonth(prevYear, prevMonth);
        SetSelectedDay(prevMaxDay);
        ChangeMonth(-1);
      } else if newDay >= 1 && newDay <= maxDay {
        SetSelectedDay(newDay);
      }
    }

    /** The render after a handler: every queued value replaces its field. */
    method Render()
      modifies this
      ensures Shown() == Commit(old(Shown()), old(queued)) && queued == NoWrites
    {
      if queued.year.Some? {
        selectedYear := queued.year.value;
      }
      if queued.month.Some? {
        selectedMonth := queued.month.value;
      }
      if queued.day.Some? {
        selectedDay := queued.day.value;
      }
      queued := NoWrites;
    }

    /** One press of an arrow: its handler, then the render. */
    method Press(b: Button)
      requires queued == NoWrites
      modifies this
      ensures Shown() == Pressed(old(Shown()), b) && queued == NoWrites
    {
      match b {
        case YearArrow(inc) =>
          ChangeYear(inc);
        case MonthArrow(inc) =>
          ChangeMonth(inc);
        case DayArrow(inc) =>
          ChangeDay(inc);
      }
      Render();
    }

    /** handleSave: the picked day as text, for onSelectDate. */
    method HandleSave() returns (date: string)
      ensures date == SaveText(Shown())
      ensures InRange(Shown()) ==> ParseDate(date) == Some(AsDate(Shown()))
    {
      var month := PadStart2(IntToString(selectedMonth));
      var day := PadStart2(IntToString(selectedDay));
      date := IntToString(selectedYear) + "-" + month + "-" + day;
      if InRange(Shown()) {
        SaveTextReadsBack(Shown());
      }
    }
  }
}
