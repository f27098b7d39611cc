/**
 * The plan-creation screen (src/screens/CreatePlanScreen.tsx): a draft task
 * list edited by handlers, the search for the first day without a plan, and
 * saving the draft through the state provider. The clock (`getToday`,
 * `Date.now`) and `Math.random` are parameters.
 */
module CreatePlan {
  import opened Types
  import opened Strings
  import opened DateUtils
  import AppContext
  import KeyValue

  /** findFirstEmptyDate looks at most this many days ahead. */
  const MaxDays: nat := 365

  /** `!plans[date] || plans[date].length === 0` */
  predicate IsFree(plans: Plans, date: string) {
    date !in plans || |plans[date]| == 0
  }

  /** `k` applications of `next`, starting from `s`. */
  function Iterate(next: string -> string, s: string, k: nat): string
    decreases k
  {
    if k == 0 then s else next(Iterate(next, s, k - 1))
  }

  /** One step of the search: `addDays(currentDate, 1)`. */
  function NextDate(s: string): string {
    AddDays(s, 1)
  }

  /** The search's current date after `k` steps. */
  function Step(start: string, k: nat): string {
    Iterate(NextDate, start, k)
  }

  /**
   * `date` is the first of the 365 candidates start, next(start), ... whose
   * plan is absent or empty, or `fallback` when every candidate holds tasks.
   */
  predicate FirstFree(plans: Plans, next: string -> string, start: string, fallback: string, date: string) {
    || (exists k: nat :: k < MaxDays && date == Iterate(next, start, k) && IsFree(plans, date)
                         && forall j: nat :: j < k ==> !IsFree(plans, Iterate(next, start, j)))
    || (date == fallback && forall k: nat :: k < MaxDays ==> !IsFree(plans, Iterate(next, start, k)))
  }

  /** Every one of the first `n` candidates from `start` holds tasks. */
  predicate AllTaken(plans: Plans, next: string -> string, start: string, n: nat)
    decreases n
  {
    n == 0 || (AllTaken(plans, next, start, n - 1) && !IsFree(plans, Iterate(next, start, n - 1)))
  }

  lemma {:induction false} AllTakenMeans(plans: Plans, next: string -> string, start: string, n: nat)
    ensures AllTaken(plans, next, start, n) <==> forall j: nat :: j < n ==> !IsFree(plans, Iterate(next, start, j))
    decreases n
  {
    if n > 0 {
      var m: nat := n - 1;
      AllTakenMeans(plans, next, start, m);
      assert AllTaken(plans, next, start, n) == (AllTaken(plans, next, start, m) && !IsFree(plans, Iterate(next, start, m)));
      if forall j: nat :: j < n ==> !IsFree(plans, Iterate(next, start, j)) {
        assert !IsFree(plans, Iterate(next, start, m));
      } else {
        var j: nat :| j < n && IsFree(plans, Iterate(next, start, j));
        assert j < m || j == m;
      }
    }
  }

  /** The search loop, for any way `next` of moving to the following date. */
  method SearchFrom(plans: Plans, start: string, fallback: string, next: string -> string) returns (date: string)
    ensures FirstFree(plans, next, start, fallback, date)
  {
    var current := start;
    var checked: nat := 0;
    while checked < MaxDays
      invariant checked <= MaxDays
      invariant current == Iterate(next, start, checked)
      invariant AllTaken(plans, next, start, checked)
    {
      if current !in plans || |plans[current]| == 0 {
        AllTakenMeans(plans, next, start, checked);
        return current;
      }
      current := next(current);
      checked := checked + 1;
    }
    AllTakenMeans(plans, next, start, checked);
    return fallback;
  }

  /**
   * findFirstEmptyDate: the first of `start`, start + 1, ..., start + 364
   * whose plan is absent or empty, or `fallback` (getToday()) when every one
   * of them holds tasks. Each step is `addDays(currentDate, 1)`.
   */
  method FindFirstEmptyDate(plans: Plans, start: string, fallback: string) returns (date: string)
    ensures FirstFree(plans, NextDate, start, fallback, date)
  {
    date := SearchFrom(plans, start, fallback, NextDate);
  }

  /** The priority after one press: low → medium → high → low, and no priority → low. */
  function NextPriority(p: Option<Priority>): (r: Priority)
    ensures p != Some(r)
    ensures r == Low <==> p.None? || p == Some(High)
  {
    match p
    case Some(Low) => Medium
    case Some(Medium) => High
    case _ => Low
  }

  /** handleChangePriority's map: only tasks with the given id change, and only their priority. */
  function CyclePriority(tasks: seq<Task>, taskId: string): (r: seq<Task>)
    ensures |r| == |tasks|
    ensures forall i :: 0 <= i < |tasks| ==>
      r[i] == if tasks[i].id == taskId then tasks[i].(priority := Some(NextPriority(tasks[i].priority))) else tasks[i]
  {
    if tasks == [] then []
    else
      var t := tasks[0];
      [if t.id == taskId then t.(priority := Some(NextPriority(t.priority))) else t] + CyclePriority(tasks[1..], taskId)
  }

  /** handleRemoveTask's `tasks.filter(task => task.id !== taskId)`. */
  function RemoveById(tasks: seq<Task>, taskId: string): (r: seq<Task>)
    ensures |r| <= |tasks|
    ensures forall t :: t in r <==> t in tasks && t.id != taskId
  {
    if tasks == [] then []
    else if tasks[0].id == taskId then RemoveById(tasks[1..], taskId)
    else [tasks[0]] + RemoveById(tasks[1..], taskId)
  }

  /** getOccupiedDates: the dates whose plan holds at least one task. */
  function OccupiedDates(plans: Plans): (r: set<string>)
    ensures forall d :: d in r <==> d in plans && |plans[d]| > 0
  {
    set d | d in plans && |plans[d]| > 0
  }

  /** The tasks made from the AI's titles: not done, no priority, fresh ids. */
  function AiTasks(titles: seq<string>, freshId: nat -> string): (r: seq<Task>)
    ensures |r| == |titles|
    ensures forall i :: 0 <= i < |titles| ==> r[i] == Task(freshId(i), titles[i], false, None)
  {
    seq(|titles|, i requires 0 <= i < |titles| => Task(freshId(i), titles[i], false, None))
  }

  class CreatePlanScreen {
    var selectedDate: string
    var taskInput: string
    var selectedPriority: Priority
    var tasks: seq<Task>
    var paragraphInput: string
    var showSuccessModal: bool
    var savedDate: string
    const app: AppContext.AppProvider

    constructor (app: AppContext.AppProvider)
      ensures this.app == app
      ensures selectedDate == "" && taskInput == "" && selectedPriority == Low && tasks == []
      ensures paragraphInput == "" && !showSuccessModal && savedDate == ""
    {
      this.app := app;
      selectedDate := "";
      taskInput := "";
      selectedPriority := Low;
      tasks := [];
      paragraphInput := "";
      showSuccessModal := false;
      savedDate := "";
    }

    /** The effect run whenever `plans` changes: select the first free day from today. */
    method PickDefaultDate(today: string)
      modifies this
      ensures FirstFree(app.plans, NextDate, today, today, selectedDate)
      ensures tasks == old(tasks) && taskInput == old(taskInput) && selectedPriority == old(selectedPriority)
      ensures paragraphInput == old(paragraphInput) && showSuccessModal == old(showSuccessModal)
      ensures savedDate == old(savedDate)
    {
      selectedDate := FindFirstEmptyDate(app.plans, today, today);
    }

    /** handleAddTask: a blank input is rejected; otherwise a new task goes at the end. */
    method AddTask(freshId: string)
      modifies this
      ensures AllSpace(old(taskInput)) ==>
        tasks == old(tasks) && taskInput == old(taskInput) && selectedPriority == old(selectedPriority)
      ensures !AllSpace(old(taskInput)) ==>
        && tasks == old(tasks) + [Task(freshId, Trim(old(taskInput)), false, Some(old(selectedPriority)))]
        && taskInput == "" && selectedPriority == Low
      ensures selectedDate == old(selectedDate) && paragraphInput == old(paragraphInput)
      ensures showSuccessModal == old(showSuccessModal) && savedDate == old(savedDate)
    {
      var title := Trim(taskInput);
      if title == "" {
        return;
      }
      tasks := tasks + [Task(freshId, title, false, Some(selectedPriority))];
      taskInput := "";
      selectedPriority := Low;
    }

    method RemoveTask(taskId: string)
      modifies this
      ensures tasks == RemoveById(old(tasks), taskId)
      ensures selectedDate == old(selectedDate) && taskInput == old(taskInput)
      ensures selectedPriority == old(selectedPriority) && paragraphInput == old(paragraphInput)
      ensures showSuccessModal == old(showSuccessModal) && savedDate == old(savedDate)
    {
      tasks := RemoveById(tasks, taskId);
    }

    method ChangePriority(taskId: string)
      modifies this
      ensures tasks == CyclePriority(old(tasks), taskId)
      ensures selectedDate == old(selectedDate) && taskInput == old(taskInput)
      ensures selectedPriority == old(selectedPriority) && paragraphInput == old(paragraphInput)
      ensures showSuccessModal == old(showSuccessModal) && savedDate == old(savedDate)
    {
      tasks := CyclePriority(tasks, taskId);
    }

    /**
     * handleSavePlan: an empty draft is rejected before the provider is called;
     * otherwise the draft is saved under the selected date and, if the write
     * succeeded, the success modal opens.
     */
    method SavePlan(writeFails: bool)
      modifies this, app, app.store
      ensures old(tasks) == [] ==>
        && app.plans == old(app.plans) && app.store.items == old(app.store.items)
        && showSuccessModal == old(showSuccessModal) && savedDate == old(savedDate)
      ensures old(tasks) != [] ==>
        && app.plans == old(app.plans)[old(selectedDate) := old(tasks)]
        && app.store.items == (if writeFails then old(app.store.items)
                               else old(app.store.items)[AppContext.PlansKey := KeyValue.PlansBlob(app.plans)])
        && showSuccessModal == (!writeFails || old(showSuccessModal))
        && savedDate == (if writeFails then old(savedDate) else old(selectedDate))
      ensures app.username == old(app.username) && app.isLoading == old(app.isLoading)
      ensures tasks == old(tasks) && selectedDate == old(selectedDate) && taskInput == old(taskInput)
      ensures selectedPriority == old(selectedPriority) && paragraphInput == old(paragraphInput)
    {
      if |tasks| == 0 {
        return;
      }
      var ok := app.SavePlan(selectedDate, tasks, writeFails);
      if ok {
        savedDate := selectedDate;
        showSuccessModal := true;
      }
    }

    /** handleSuccessModalClose: the form is cleared and the search runs again from addDays(today, 0). */
    method SuccessModalClose(today: string)
      modifies this
      ensures !showSuccessModal && tasks == [] && taskInput == "" && paragraphInput == ""
      ensures selectedPriority == Low && savedDate == old(savedDate)
      ensures FirstFree(app.plans, NextDate, AddDays(today, 0), today, selectedDate)
    {
      showSuccessModal := false;
      tasks := [];
      taskInput := "";
      paragraphInput := "";
      selectedPriority := Low;
      selectedDate := FindFirstEmptyDate(app.plans, AddDays(today, 0), today);
    }

    /**
     * The task-appending part of handleAiGenerate. A blank paragraph or a
     * missing API key is rejected; `outcome` is what convertParagraphToTasks
     * produced. On success the new tasks follow the existing ones and the
     * paragraph is cleared; on failure nothing changes.
     */
    method AiGenerate(hasKey: bool, outcome: Result<seq<string>>, freshId: nat -> string)
      modifies this
      ensures AllSpace(old(paragraphInput)) || !hasKey || outcome.Err? ==>
        tasks == old(tasks) && paragraphInput == old(paragraphInput)
      ensures !AllSpace(old(paragraphInput)) && hasKey && outcome.Ok? ==>
        tasks == old(tasks) + AiTasks(outcome.value, freshId) && paragraphInput == ""
      ensures selectedDate == old(selectedDate) && taskInput == old(taskInput)
      ensures selectedPriority == old(selectedPriority)
      ensures showSuccessModal == old(showSuccessModal) && savedDate == old(savedDate)
    {
      if Trim(paragraphInput) == "" || !hasKey {
        return;
      }
      match outcome {
        case Err(_) =>
        case Ok(titles) =>
          tasks := tasks + AiTasks(titles, freshId);
          paragraphInput := "";
      }
    }
  }

  // ---------------------------------------------------------------------------
  // Properties

  /** Three presses bring a task that has a priority back to where it was. */
  lemma NextPriorityCycle(p: Priority)
    ensures NextPriority(Some(NextPriority(Some(NextPriority(Some(p)))))) == p
    ensures NextPriority(None) == Low
  {
  }

  /** Three presses on the same id restore a list in which every matching task has a priority. */
  lemma ThreeCyclesRestore(tasks: seq<Task>, taskId: string)
    requires forall i :: 0 <= i < |tasks| && tasks[i].id == taskId ==> tasks[i].priority.Some?
    ensures CyclePriority(CyclePriority(CyclePriority(tasks, taskId), taskId), taskId) == tasks
  {
    var r := CyclePriority(CyclePriority(CyclePriority(tasks, taskId), taskId), taskId);
    forall i | 0 <= i < |tasks| ensures r[i] == tasks[i] {
      if tasks[i].id == taskId {
        NextPriorityCycle(tasks[i].priority.value);
      }
    }
  }

  /** Removal keeps the survivors' order: it distributes over concatenation. */
  lemma {:induction false} RemoveDistributes(a: seq<Task>, b: seq<Task>, taskId: string)
    ensures RemoveById(a + b, taskId) == RemoveById(a, taskId) + RemoveById(b, taskId)
  {
    if a == [] {
      assert a + b == b;
    } else {
      assert (a + b)[1..] == a[1..] + b;
      RemoveDistributes(a[1..], b, taskId);
    }
  }

  /** Removing an id nobody has changes nothing, and removing twice is removing once. */
  lemma {:induction false} RemoveAbsentId(tasks: seq<Task>, taskId: string)
    ensures (forall t :: t in tasks ==> t.id != taskId) ==> RemoveById(tasks, taskId) == tasks
    ensures RemoveById(RemoveById(tasks, taskId), taskId) == RemoveById(tasks, taskId)
  {
    if tasks != [] {
      RemoveAbsentId(tasks[1..], taskId);
      var r := RemoveById(tasks[1..], taskId);
      if tasks[0].id != taskId {
        assert ([tasks[0]] + r)[1..] == r;
      }
    }
  }

  /** The dates getOccupiedDates lists are exactly those the empty-date search skips. */
  lemma OccupiedIsNotFree(plans: Plans, d: string)
    ensures d in OccupiedDates(plans) <==> !IsFree(plans, d)
  {
  }

  /** The search never picks a date that getOccupiedDates lists, unless it falls back to today. */
  lemma FirstFreeNotOccupied(plans: Plans, next: string -> string, start: string, fallback: string, date: string)
    requires FirstFree(plans, next, start, fallback, date)
    ensures date == fallback || date !in OccupiedDates(plans)
  {
  }

  /** Moving forward never lowers the year. */
  lemma {:induction false} ShiftYearGrows(d: Ymd, k: nat)
    requires Valid(d)
    ensures Shift(d, k).year >= d.year
    decreases k
  {
    if k > 0 {
      ShiftYearGrows(NextDay(d), k - 1);
    }
  }

  /** Iterating a step that moves a date's text one day ahead walks the calendar. */
  lemma {:induction false} IterateTracksShift(next: string -> string, text: Ymd -> string, d: Ymd, k: nat)
    requires Valid(d) && d.year >= 100
    requires forall e: Ymd :: Valid(e) && e.year >= 100 ==> next(text(e)) == text(NextDay(e))
    ensures Iterate(next, text(d), k) == text(Shift(d, k))
    decreases k
  {
    if k > 0 {
      IterateTracksShift(next, text, d, k - 1);
      ShiftYearGrows(d, k - 1);
      ShiftOneMore(d, k - 1);
    }
  }

  lemma ShiftOneMore(d: Ymd, k: nat)
    requires Valid(d)
    ensures Shift(d, k + 1) == NextDay(Shift(d, k))
  {
    ShiftAdd(d, k, 1);
    assert Shift(Shift(d, k), 1) == Shift(NextDay(Shift(d, k)), 0);
  }

  /** From a formatted date, the search's k-th candidate is the k-th day after it. */
  lemma StepIsShift(d: Ymd, k: nat)
    requires Valid(d) && d.year >= 100
    ensures Step(FormatDate(d), k) == FormatDate(Shift(d, k))
  {
    var text := (e: Ymd) => if Valid(e) then FormatDate(e) else "";
    forall e: Ymd | Valid(e) && e.year >= 100
      ensures NextDate(text(e)) == text(NextDay(e))
    {
      AddOneDay(e);
    }
    IterateTracksShift(NextDate, text, d, k);
  }

  /** The k-th candidate is addDays(today, k), and the second search starts where the first does. */
  lemma SearchCandidates(d: Ymd, k: nat)
    requires Valid(d) && d.year >= 100
    ensures Step(FormatDate(d), k) == AddDays(FormatDate(d), k)
    ensures AddDays(FormatDate(d), 0) == FormatDate(d)
  {
    StepIsShift(d, k);
    ParseFormatRoundTrip(d);
    AddZeroDays(d);
  }
}
