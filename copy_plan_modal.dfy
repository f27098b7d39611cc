/**
 * The copy-plan dialog (src/components/CopyPlanModal.tsx): the user ticks
 * tasks of a source day and picks a target day with arrow buttons. Each
 * handler calls every setter at most once, so it is modelled as a direct
 * update of the fields. Unlike the calendar picker, the target day has no
 * year bounds and the year and month arrows never adjust the day.
 */
module CopyPlanModal {
  import opened Types
  import opened Strings
  import opened DateUtils
  import CalendarModal

  type Target = CalendarModal.Picker

  // ---------------------------------------------------------------------------
  // The selection

  /** `ids.filter(id => id !== x)` */
  function Without(ids: seq<string>, x: string): (r: seq<string>)
    ensures |r| <= |ids|
    ensures forall y :: y in r <==> y in ids && y != x
  {
    if ids == [] then []
    else if ids[0] == x then Without(ids[1..], x)
    else [ids[0]] + Without(ids[1..], x)
  }

  /** toggleTask: a ticked id is unticked (every copy of it), any other id is appended. */
  function Toggle(ids: seq<string>, x: string): (r: seq<string>)
    ensures x in r <==> x !in ids
    ensures forall y :: y != x ==> (y in r <==> y in ids)
  {
    if x in ids then Without(ids, x) else ids + [x]
  }

  /** Filtering out an id that is not there changes nothing. */
  lemma {:induction false} WithoutAbsent(ids: seq<string>, x: string)
    requires x !in ids
    ensures Without(ids, x) == ids
  {
    if ids != [] {
      WithoutAbsent(ids[1..], x);
      assert ids == [ids[0]] + ids[1..];
    }
  }

  lemma {:induction false} WithoutAppended(ids: seq<string>, x: string)
    ensures Without(ids + [x], x) == Without(ids, x)
  {
    if ids == [] {
      assert [x][1..] == [];
    } else {
      assert (ids + [x])[1..] == ids[1..] + [x];
      WithoutAppended(ids[1..], x);
    }
  }

  /**
   * Toggling twice restores which ids are ticked; an id that was not ticked
   * leaves the selection exactly as it was, and one that was ends up last.
   */
  lemma ToggleTwice(ids: seq<string>, x: string)
    ensures forall y :: y in Toggle(Toggle(ids, x), x) <==> y in ids
    ensures x !in ids ==> Toggle(Toggle(ids, x), x) == ids
    ensures x in ids ==> Toggle(Toggle(ids, x), x) == Without(ids, x) + [x]
  {
    if x !in ids {
      WithoutAppended(ids, x);
      WithoutAbsent(ids, x);
    }
  }

  /** `sourceTasks.filter(task => selected.includes(task.id))` */
  function Chosen(tasks: seq<Task>, ids: seq<string>): (r: seq<Task>)
    ensures |r| <= |tasks|
    ensures forall t :: t in r <==> t in tasks && t.id in ids
  {
    if tasks == [] then []
    else if tasks[0].id in ids then [tasks[0]] + Chosen(tasks[1..], ids)
    else Chosen(tasks[1..], ids)
  }

  /** The copied tasks keep the source order: only which ids are ticked matters, not the ticking order. */
  lemma {:induction false} ChosenIgnoresTickOrder(tasks: seq<Task>, a: seq<string>, b: seq<string>)
    requires forall y :: y in a <==> y in b
    ensures Chosen(tasks, a) == Chosen(tasks, b)
  {
    if tasks != [] {
      ChosenIgnoresTickOrder(tasks[1..], a, b);
    }
  }

  /** The copied tasks are the source list with the unticked tasks left out, in source order. */
  lemma {:induction false} ChosenInSourceOrder(tasks: seq<Task>, ids: seq<string>)
    ensures Subsequence(Chosen(tasks, ids), tasks)
  {
    if tasks != [] {
      ChosenInSourceOrder(tasks[1..], ids);
      var r := Chosen(tasks, ids);
      if tasks[0].id in ids {
        assert r[0] == tasks[0] && r[1..] == Chosen(tasks[1..], ids);
      } else if r != [] {
        assert r[0] in r;
      }
    }
  }

  /** Ticking everything copies the whole list. */
  lemma {:induction false} ChosenAll(tasks: seq<Task>)
    ensures Chosen(tasks, Ids(tasks)) == tasks
  {
    ChosenSuperset(tasks, Ids(tasks));
  }

  lemma {:induction false} ChosenSuperset(tasks: seq<Task>, ids: seq<string>)
    requires forall i :: 0 <= i < |tasks| ==> tasks[i].id in ids
    ensures Chosen(tasks, ids) == tasks
  {
    if tasks != [] {
      assert tasks[0].id in ids;
      ChosenSuperset(tasks[1..], ids);
    }
  }

  // ---------------------------------------------------------------------------
  // The target day

  /** handleCopy's target text, written like the calendar picker's. */
  function TargetText(t: Target): string {
    CalendarModal.SaveText(t)
  }

  /** Year arrows: ▲ is one year back, ▼ one year ahead; no bound. */
  function YearArrow(t: Target, up: bool): (r: Target)
    ensures r.(year := t.year) == t
    ensures r.year < t.year <==> up
    ensures r.year - t.year == 1 || t.year - r.year == 1
  {
    t.(year := if up then t.year - 1 else t.year + 1)
  }

  /** Month arrows: ▲ is the previous month, ▼ the next, wrapping and carrying the year; the day stays. */
  function MonthArrow(t: Target, up: bool): (r: Target)
    ensures r.day == t.day
    ensures 1 <= t.month <= 12 ==>
      1 <= r.month <= 12 && r.year * 12 + r.month == t.year * 12 + t.month + (if up then -1 else 1)
  {
    if up then
      if t.month == 1 then CalendarModal.Picker(t.year - 1, 12, t.day) else t.(month := t.month - 1)
    else
      if t.month == 12 then CalendarModal.Picker(t.year + 1, 1, t.day) else t.(month := t.month + 1)
  }

  /** Day ▲: the previous day; from day 1 to the last day of the previous month, Dec 31 from January. */
  function DayUp(t: Target): (r: Target)
    ensures t.day != 1 ==> r == t.(day := t.day - 1)
    ensures t.day == 1 && 1 <= t.month <= 12 ==> r.year * 12 + r.month == t.year * 12 + t.month - 1
  {
    if t.day == 1 then
      if t.month == 1 then CalendarModal.Picker(t.year - 1, 12, 31)
      else CalendarModal.Picker(t.year, t.month - 1, CalendarModal.GetDaysInMonth(t.year, t.month - 1))
    else t.(day := t.day - 1)
  }

  /** Day ▼: the next day; from the month's last day (or beyond it) to day 1 of the next month. */
  function DayDown(t: Target): (r: Target)
    ensures t.day < CalendarModal.GetDaysInMonth(t.year, t.month) ==> r == t.(day := t.day + 1)
    ensures t.day >= CalendarModal.GetDaysInMonth(t.year, t.month) && 1 <= t.month <= 12 ==>
      r.day == 1 && r.year * 12 + r.month == t.year * 12 + t.month + 1
  {
    if t.day >= CalendarModal.GetDaysInMonth(t.year, t.month) then
      if t.month == 12 then CalendarModal.Picker(t.year + 1, 1, 1)
      else CalendarModal.Picker(t.year, t.month + 1, 1)
    else t.(day := t.day + 1)
  }

  /** Every arrow keeps the month within 1..12. */
  lemma ArrowsKeepMonth(t: Target, up: bool)
    requires 1 <= t.month <= 12
    ensures 1 <= YearArrow(t, up).month <= 12
    ensures 1 <= MonthArrow(t, up).month <= 12
    ensures 1 <= DayUp(t).month <= 12
    ensures 1 <= DayDown(t).month <= 12
  {
  }

  /** The day arrows step through the calendar: ▼ is the next day and ▲ the previous one. */
  lemma DayArrowsFollowCalendar(t: Target)
    requires Valid(CalendarModal.AsDate(t)) && t.year >= 100
    ensures CalendarModal.AsDate(DayDown(t)) == NextDay(CalendarModal.AsDate(t))
    ensures CalendarModal.AsDate(DayUp(t)) == PrevDay(CalendarModal.AsDate(t))
  {
    CalendarModal.DaysInMonthIsGregorian(t.year, t.month);
    if t.month > 1 {
      CalendarModal.DaysInMonthIsGregorian(t.year, t.month - 1);
    }
  }

  /** The day arrows undo each other on calendar days. */
  lemma DayArrowsInverse(t: Target)
    requires Valid(CalendarModal.AsDate(t)) && t.year >= 101
    ensures DayUp(DayDown(t)) == t
    ensures DayDown(DayUp(t)) == t
  {
    var d := CalendarModal.AsDate(t);
    DayArrowsFollowCalendar(t);
    var n, p := DayDown(t), DayUp(t);
    DayArrowsFollowCalendar(n);
    DayArrowsFollowCalendar(p);
    PrevNextInverse(d);
  }

  /** The year arrows undo each other. */
  lemma YearArrowsInverse(t: Target)
    ensures YearArrow(YearArrow(t, true), false) == t
    ensures YearArrow(YearArrow(t, false), true) == t
  {
  }

  /** The month arrows undo each other. */
  lemma MonthArrowsInverse(t: Target)
    requires 1 <= t.month <= 12
    ensures MonthArrow(MonthArrow(t, true), false) == t
    ensures MonthArrow(MonthArrow(t, false), true) == t
  {
  }

  /**
   * The month arrow does not lower the day: from January 31 the target
   * becomes February 31, emitted as "YYYY-02-31", which dateUtils' parseDate
   * reads as March 3 (March 2 in a leap year).
   */
  lemma NonexistentTargetReachable(y: int)
    requires y >= 100
    ensures MonthArrow(CalendarModal.Picker(y, 1, 31), false) == CalendarModal.Picker(y, 2, 31)
    ensures !Valid(Ymd(y, 2, 31))
    ensures TargetText(CalendarModal.Picker(y, 2, 31)) == NatToString(y) + "-" + "02" + "-" + "31"
    ensures ParseDate(TargetText(CalendarModal.Picker(y, 2, 31))) == Some(Ymd(y, 3, 31 - DaysInMonth(y, 2)))
  {
    Feb31Text(y);
    Feb31Parses(y);
  }

  lemma Feb31Parses(y: int)
    requires y >= 100
    ensures ParseDate(NatToString(y) + "-" + "02" + "-" + "31") == Some(Ymd(y, 3, 31 - DaysInMonth(y, 2)))
  {
    var year := NatToString(y);
    assert DigitsValue("02") == 2 by {
      assert "02"[..1] == "0";
    }
    assert DigitsValue("31") == 31 by {
      assert "31"[..1] == "3";
    }
    assert ParseDate(year + "-" + "02" + "-" + "31") == Some(MakeDate(y, 2, 31)) by {
      assert AllDigits("02") && AllDigits("31");
      ParseDigitParts(year, "02", "31");
    }
    Feb31RollsOver(y);
  }

  lemma Feb31Text(y: int)
    requires y >= 0
    ensures TargetText(CalendarModal.Picker(y, 2, 31)) == NatToString(y) + "-" + "02" + "-" + "31"
  {
    assert IntToString(2) == "2";
    assert IntToString(31) == "31" by {
      assert NatToString(31) == NatToString(3) + [DigitChar(1)];
    }
    assert PadStart2("2") == "02";
  }

  lemma Feb31RollsOver(y: int)
    requires y >= 100
    ensures MakeDate(y, 2, 31) == Ymd(y, 3, 31 - DaysInMonth(y, 2))
  {
    var first := Ymd(y, 2, 1);
    var n := DaysInMonth(y, 2);
    assert MakeDate(y, 2, 31) == Shift(first, 30);
    MakeDateRollsOver(y, 2);
    assert MakeDate(y, 2, n + 1) == Shift(first, n);
    ShiftWithinMonth(Ymd(y, 3, 1), 30 - n);
    ShiftAdd(first, n, 30 - n);
  }

  // ---------------------------------------------------------------------------
  // The component

  class CopyPlan {
    var sourceTasks: seq<Task>
    var selectedTasks: seq<string>
    var target: Target

    /** Mounted with every source task ticked and today as the target. */
    constructor (sourceTasks: seq<Task>, today: Ymd)
      ensures this.sourceTasks == sourceTasks && selectedTasks == Ids(sourceTasks)
      ensures target == CalendarModal.Picker(today.year, today.month, today.day)
    {
      this.sourceTasks := sourceTasks;
      selectedTasks := Ids(sourceTasks);
      target := CalendarModal.Picker(today.year, today.month, today.day);
    }

    /** The effect on [visible, sourceTasks]: opening the dialog ticks every source task again. */
    method Refresh(visible: bool, tasks: seq<Task>)
      modifies this
      ensures sourceTasks == tasks && target == old(target)
      ensures selectedTasks == if visible then Ids(tasks) else old(selectedTasks)
    {
      sourceTasks := tasks;
      if visible {
        selectedTasks := Ids(tasks);
      }
    }

    method ToggleTask(taskId: string)
      modifies this
      ensures selectedTasks == Toggle(old(selectedTasks), taskId)
      ensures sourceTasks == old(sourceTasks) && target == old(target)
    {
      if taskId in selectedTasks {
        selectedTasks := Without(selectedTasks, taskId);
      } else {
        selectedTasks := selectedTasks + [taskId];
      }
    }

    /** handleCopy: nothing with no task ticked; otherwise the target text and the ticked tasks in source order. */
    method HandleCopy() returns (copy: Option<(string, seq<Task>)>)
      ensures copy.None? <==> selectedTasks == []
      ensures copy.Some? ==> copy.value == (TargetText(target), Chosen(sourceTasks, selectedTasks))
      ensures copy.Some? ==> forall t :: t in copy.value.1 <==> t in sourceTasks && t.id in selectedTasks
    {
      if |selectedTasks| == 0 {
        return None;
      }
      var targetDate := TargetText(target);
      var toCopy := Chosen(sourceTasks, selectedTasks);
      copy := Some((targetDate, toCopy));
    }

    method PressYear(up: bool)
      modifies this
      ensures target == YearArrow(old(target), up)
      ensures sourceTasks == old(sourceTasks) && selectedTasks == old(selectedTasks)
    {
      target := target.(year := if up then target.year - 1 else target.year + 1);
    }

    method PressMonth(up: bool)
      modifies this
      ensures target == MonthArrow(old(target), up)
      ensures sourceTasks == old(sourceTasks) && selectedTasks == old(selectedTasks)
    {
      if up {
        if target.month == 1 {
          target := target.(month := 12, year := target.year - 1);
        } else {
          target := target.(month := target.month - 1);
        }
      } else {
        if target.month == 12 {
          target := target.(month := 1, year := target.year + 1);
        } else {
          target := target.(month := target.month + 1);
        }
      }
    }

    method PressDayUp()
      modifies this
      ensures target == DayUp(old(target))
      ensures sourceTasks == old(sourceTasks) && selectedTasks == old(selectedTasks)
    {
      if target.day == 1 {
        if target.month == 1 {
          target := CalendarModal.Picker(target.year - 1, 12, 31);
        } else {
          var prevMonth := target.month - 1;
          target := CalendarModal.Picker(target.year, prevMonth, CalendarModal.GetDaysInMonth(target.year, prevMonth));
        }
      } else {
        target := target.(day := target.day - 1);
      }
    }

    method PressDayDown()
      modifies this
      ensures target == DayDown(old(target))
      ensures sourceTasks == old(sourceTasks) && selectedTasks == old(selectedTasks)
    {
      var daysInMonth := CalendarModal.GetDaysInMonth(target.year, target.month);
      if target.day >= daysInMonth {
        if target.month == 12 {
          target := CalendarModal.Picker(target.year + 1, 1, 1);
        } else {
          target := CalendarModal.Picker(target.year, target.month + 1, 1);
        }
      } else {
        target := target.(day := target.day + 1);
      }
    }
  }
}
