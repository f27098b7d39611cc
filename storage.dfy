/**
 * The plan repository (src/utils/storage.ts). All plans live as one dictionary
 * under the plans key; every mutation reads the whole dictionary, changes it
 * and writes it back. Each storage call may fail: `readFails` / `writeFails`
 * say which of an operation's calls do. Reading errors are swallowed inside
 * getAllPlans, writing errors turn into a `false` result.
 */
module Storage {
  import opened Types
  import opened KeyValue

  const PlansKey: string := "@daily_planner_plans"
  const UserNameKey: string := "@daily_planner_user_name"
  const GenderKey: string := "@daily_planner_gender"

  datatype Gender = Male | Female

  /** `Partial<Task>`: each field present in the patch replaces the task's field. */
  datatype TaskPatch = TaskPatch(
    id: Option<string>,
    title: Option<string>,
    done: Option<bool>,
    priority: Option<Option<Priority>>)

  // ---------------------------------------------------------------------------
  // What each operation computes, as functions of the store's contents

  /** getAllPlans: the stored dictionary, or {} when the key is absent, the read fails or the text does not parse. */
  function ReadPlans(items: map<string, Stored>, readFails: bool): (p: Plans)
    ensures readFails || !Lookup(items, PlansKey).PlansBlob? ==> p == map[]
    ensures !readFails && Lookup(items, PlansKey).PlansBlob? ==> p == Lookup(items, PlansKey).plans
  {
    if readFails then map[]
    else match Lookup(items, PlansKey)
      case PlansBlob(p) => p
      case _ => map[]
  }

  /** getPlanByDate's `allPlans[date] || []`. */
  function PlanOf(plans: Plans, date: string): (tasks: seq<Task>)
    ensures date in plans ==> tasks == plans[date]
    ensures date !in plans ==> tasks == []
  {
    if date in plans then plans[date] else []
  }

  /** The store after a successful write of savePlan. */
  function StoreAfterSave(items: map<string, Stored>, date: string, tasks: seq<Task>, readFails: bool): map<string, Stored> {
    items[PlansKey := PlansBlob(ReadPlans(items, readFails)[date := tasks])]
  }

  /** The store after a successful write of deletePlan. */
  function StoreAfterDelete(items: map<string, Stored>, date: string, readFails: bool): map<string, Stored> {
    items[PlansKey := PlansBlob(ReadPlans(items, readFails) - {date})]
  }

  /** `{ ...task, ...updates }` */
  function Merge(t: Task, u: TaskPatch): (r: Task)
    ensures r.id == (if u.id.Some? then u.id.value else t.id)
    ensures r.title == (if u.title.Some? then u.title.value else t.title)
    ensures r.done == (if u.done.Some? then u.done.value else t.done)
    ensures r.priority == (if u.priority.Some? then u.priority.value else t.priority)
  {
    Task(
      if u.id.Some? then u.id.value else t.id,
      if u.title.Some? then u.title.value else t.title,
      if u.done.Some? then u.done.value else t.done,
      if u.priority.Some? then u.priority.value else t.priority)
  }

  /** updateTask's `tasks.map(task => task.id === taskId ? { ...task, ...updates } : task)`. */
  function ApplyPatch(tasks: seq<Task>, taskId: string, u: TaskPatch): (r: seq<Task>)
    ensures |r| == |tasks|
    ensures forall i :: 0 <= i < |tasks| ==>
      r[i] == if tasks[i].id == taskId then Merge(tasks[i], u) else tasks[i]
  {
    if tasks == [] then []
    else [if tasks[0].id == taskId then Merge(tasks[0], u) else tasks[0]] + ApplyPatch(tasks[1..], taskId, u)
  }

  /** Fields absent from a patch are kept, and applying the same patch twice is applying it once. */
  lemma MergeLaws(t: Task, u: TaskPatch)
    ensures Merge(t, TaskPatch(None, None, None, None)) == t
    ensures Merge(Merge(t, u), u) == Merge(t, u)
    ensures u == TaskPatch(Some(t.id), Some(t.title), Some(t.done), Some(t.priority)) ==> Merge(t, u) == t
  {
  }

  /** The store after updateTask: getPlanByDate (first read), the patch, then savePlan (second read). */
  function StoreAfterUpdate(items: map<string, Stored>, date: string, taskId: string, u: TaskPatch,
                            firstReadFails: bool, secondReadFails: bool): map<string, Stored>
  {
    var tasks := PlanOf(ReadPlans(items, firstReadFails), date);
    StoreAfterSave(items, date, ApplyPatch(tasks, taskId, u), secondReadFails)
  }

  /**
   * getUserName: the stored text, or null. Only texts are ever written under
   * the name key; a dictionary or an unparsable value stored there, which the
   * program never writes, reads as null here although `getItem` would return
   * its raw text.
   */
  function ReadText(items: map<string, Stored>, key: string, readFails: bool): (r: Option<string>)
    ensures r.Some? <==> !readFails && Lookup(items, key).Text?
    ensures r.Some? ==> Lookup(items, key) == Text(r.value)
  {
    if readFails then None
    else match Lookup(items, key)
      case Text(s) => Some(s)
      case _ => None
  }

  /** getGender: 'female' only for the exact stored text "female". */
  function ReadGender(items: map<string, Stored>, readFails: bool): Gender {
    if !readFails && Lookup(items, GenderKey) == Text("female") then Female else Male
  }

  function GenderText(g: Gender): string {
    if g == Female then "female" else "male"
  }

  // ---------------------------------------------------------------------------
  // The repository's operations

  method GetAllPlans(store: Store, readFails: bool) returns (plans: Plans)
    ensures plans == ReadPlans(store.items, readFails)
  {
    if readFails {
      return map[];
    }
    var v := store.Get(PlansKey);
    if v == Absent {
      return map[];
    }
    match v {
      case PlansBlob(p) => plans := p;
      case _ => plans := map[];
    }
  }

  method GetPlanByDate(store: Store, date: string, readFails: bool) returns (tasks: seq<Task>)
    ensures tasks == PlanOf(ReadPlans(store.items, readFails), date)
  {
    var all := GetAllPlans(store, readFails);
    tasks := if date in all then all[date] else [];
  }

  method SavePlan(store: Store, date: string, tasks: seq<Task>, readFails: bool, writeFails: bool)
    returns (ok: bool)
    modifies store
    ensures ok == !writeFails
    ensures store.items == if writeFails then old(store.items)
                           else StoreAfterSave(old(store.items), date, tasks, readFails)
  {
    var all := GetAllPlans(store, readFails);
    all := all[date := tasks];
    ok := store.SetItem(PlansKey, PlansBlob(all), writeFails);
  }

  method DeletePlan(store: Store, date: string, readFails: bool, writeFails: bool)
    returns (ok: bool)
    modifies store
    ensures ok == !writeFails
    ensures store.items == if writeFails then old(store.items)
                           else StoreAfterDelete(old(store.items), date, readFails)
  {
    var all := GetAllPlans(store, readFails);
    all := all - {date};
    ok := store.SetItem(PlansKey, PlansBlob(all), writeFails);
  }

  /** updateTask reports success even when its inner savePlan could not write. */
  method UpdateTask(store: Store, date: string, taskId: string, u: TaskPatch,
                    firstReadFails: bool, secondReadFails: bool, writeFails: bool)
    returns (ok: bool)
    modifies store
    ensures ok
    ensures store.items == if writeFails then old(store.items)
                           else StoreAfterUpdate(old(store.items), date, taskId, u, firstReadFails, secondReadFails)
  {
    var tasks := GetPlanByDate(store, date, firstReadFails);
    var updated := ApplyPatch(tasks, taskId, u);
    var _ := SavePlan(store, date, updated, secondReadFails, writeFails);
    ok := true;
  }

  method SaveUserName(store: Store, name: string, writeFails: bool) returns (ok: bool)
    modifies store
    ensures ok == !writeFails
    ensures store.items == if writeFails then old(store.items) else old(store.items)[UserNameKey := Text(name)]
  {
    ok := store.SetItem(UserNameKey, Text(name), writeFails);
  }

  method GetUserName(store: Store, readFails: bool) returns (name: Option<string>)
    ensures name == ReadText(store.items, UserNameKey, readFails)
  {
    if readFails {
      return None;
    }
    match store.Get(UserNameKey) {
      case Text(s) => name := Some(s);
      case _ => name := None;
    }
  }

  method SaveGender(store: Store, g: Gender, writeFails: bool) returns (ok: bool)
    modifies store
    ensures ok == !writeFails
    ensures store.items == if writeFails then old(store.items) else old(store.items)[GenderKey := Text(GenderText(g))]
  {
    ok := store.SetItem(GenderKey, Text(GenderText(g)), writeFails);
  }

  method GetGender(store: Store, readFails: bool) returns (g: Gender)
    ensures g == ReadGender(store.items, readFails)
  {
    if readFails {
      return Male;
    }
    var v := store.Get(GenderKey);
    g := if v == Text("female") then Female else Male;
  }

  method ClearAllData(store: Store, fails: bool) returns (ok: bool)
    modifies store
    ensures ok == !fails
    ensures store.items == if fails then old(store.items) else map[]
  {
    ok := store.Clear(fails);
  }

  // ---------------------------------------------------------------------------
  // Properties

  /** After a save, getAllPlans maps the date to exactly the saved tasks and every other date as before. */
  lemma SaveThenRead(items: map<string, Stored>, date: string, tasks: seq<Task>, readFails: bool)
    ensures var after := ReadPlans(StoreAfterSave(items, date, tasks, readFails), false);
      && after.Keys == ReadPlans(items, readFails).Keys + {date}
      && after[date] == tasks
      && forall d :: d in after && d != date ==> after[d] == ReadPlans(items, readFails)[d]
  {
  }

  /** getPlanByDate after savePlan gives the saved list for that date and the previous list for every other date. */
  lemma PlanAfterSave(items: map<string, Stored>, date: string, tasks: seq<Task>, readFails: bool, other: string)
    ensures PlanOf(ReadPlans(StoreAfterSave(items, date, tasks, readFails), false), date) == tasks
    ensures other != date ==>
      PlanOf(ReadPlans(StoreAfterSave(items, date, tasks, readFails), false), other)
        == PlanOf(ReadPlans(items, readFails), other)
  {
  }

  /** A corrupt blob (or a failed read) is replaced by a dictionary holding only the saved date. */
  lemma SaveOverCorruptBlob(items: map<string, Stored>, date: string, tasks: seq<Task>, readFails: bool)
    requires readFails || Lookup(items, PlansKey) == Corrupt
    ensures ReadPlans(StoreAfterSave(items, date, tasks, readFails), false) == map[date := tasks]
  {
  }

  /** deletePlan removes the key itself, and deleting twice is deleting once. */
  lemma DeleteRemovesKey(items: map<string, Stored>, date: string)
    ensures date !in ReadPlans(StoreAfterDelete(items, date, false), false)
    ensures StoreAfterDelete(StoreAfterDelete(items, date, false), date, false)
         == StoreAfterDelete(items, date, false)
  {
    var once := ReadPlans(items, false) - {date};
    var s1 := StoreAfterDelete(items, date, false);
    assert ReadPlans(s1, false) == once;
    assert once - {date} == once;
    assert s1[PlansKey := PlansBlob(once)] == s1;
  }

  /** Deleting an absent date leaves the dictionary as it was. */
  lemma DeleteAbsentDate(items: map<string, Stored>, date: string)
    requires date !in ReadPlans(items, false)
    ensures ReadPlans(StoreAfterDelete(items, date, false), false) == ReadPlans(items, false)
  {
  }

  /** Tasks with another id keep every field; a task id that matches nothing changes nothing. */
  lemma PatchIsolation(tasks: seq<Task>, taskId: string, u: TaskPatch)
    ensures forall i :: 0 <= i < |tasks| && tasks[i].id != taskId ==> ApplyPatch(tasks, taskId, u)[i] == tasks[i]
    ensures (forall i :: 0 <= i < |tasks| ==> tasks[i].id != taskId) ==> ApplyPatch(tasks, taskId, u) == tasks
  {
  }

  /** A patch of `done` alone changes only the `done` field of the matching tasks. */
  lemma DonePatchChangesOnlyDone(tasks: seq<Task>, taskId: string, done: bool)
    ensures var r := ApplyPatch(tasks, taskId, TaskPatch(None, None, Some(done), None));
      forall i :: 0 <= i < |tasks| ==>
        r[i] == if tasks[i].id == taskId then tasks[i].(done := done) else tasks[i]
  {
  }

  /** updateTask on a date with no plan writes an empty list under that date. */
  lemma UpdateOnMissingDate(items: map<string, Stored>, date: string, taskId: string, u: TaskPatch)
    requires date !in ReadPlans(items, false)
    ensures var after := ReadPlans(StoreAfterUpdate(items, date, taskId, u, false, false), false);
      date in after && after[date] == []
  {
  }

  /** getGender says 'female' exactly when the stored text is "female" and the read succeeds. */
  lemma GenderFallback(items: map<string, Stored>, readFails: bool)
    ensures ReadGender(items, readFails) == Female <==> !readFails && Lookup(items, GenderKey) == Text("female")
  {
  }

  /** saveGender then getGender gives the saved gender back. */
  lemma GenderRoundTrip(items: map<string, Stored>, g: Gender)
    ensures ReadGender(items[GenderKey := Text(GenderText(g))], false) == g
  {
  }

  /** saveUserName then getUserName gives the saved name back, and saving a name leaves the plans as they were. */
  lemma UserNameRoundTrip(items: map<string, Stored>, name: string)
    ensures ReadText(items[UserNameKey := Text(name)], UserNameKey, false) == Some(name)
    ensures ReadPlans(items[UserNameKey := Text(name)], false) == ReadPlans(items, false)
  {
  }

  /** The store after a sequence of successful savePlan calls, in order. */
  function SaveAll(items: map<string, Stored>, entries: seq<(string, seq<Task>)>): map<string, Stored>
    decreases |entries|
  {
    if entries == [] then items
    else
      var last := entries[|entries| - 1];
      StoreAfterSave(SaveAll(items, entries[..|entries| - 1]), last.0, last.1, false)
  }

  /** Every plans dictionary is what getAllPlans returns after some sequence of saves into an empty store. */
  lemma {:induction false} EveryDictionaryReadsBack(m: Plans)
    ensures exists entries :: ReadPlans(SaveAll(map[], entries), false) == m
    decreases |m|
  {
    if m == map[] {
      assert ReadPlans(SaveAll(map[], []), false) == m;
    } else {
      var k :| k in m;
      var rest := m - {k};
      assert |rest| < |m| by {
        assert rest.Keys == m.Keys - {k};
      }
      EveryDictionaryReadsBack(rest);
      var es :| ReadPlans(SaveAll(map[], es), false) == rest;
      var entries := es + [(k, m[k])];
      assert entries[..|entries| - 1] == es;
      assert ReadPlans(SaveAll(map[], entries), false) == rest[k := m[k]];
      assert rest[k := m[k]] == m;
    }
  }

  /** Saving one task, marking it done, then deleting the day, starting from an empty store. */
  lemma SaveToggleDeleteScenario()
    ensures var t := Task("1", "Buy milk", false, Some(Low));
      var s1 := StoreAfterSave(map[], "2025-06-01", [t], false);
      var s2 := StoreAfterUpdate(s1, "2025-06-01", "1", TaskPatch(None, None, Some(true), None), false, false);
      var s3 := StoreAfterDelete(s2, "2025-06-01", false);
      && ReadPlans(s2, false) == map["2025-06-01" := [t.(done := true)]]
      && ReadPlans(s3, false) == map[]
  {
    var t := Task("1", "Buy milk", false, Some(Low));
    var s1 := StoreAfterSave(map[], "2025-06-01", [t], false);
    assert ReadPlans(s1, false) == map["2025-06-01" := [t]];
    var u := TaskPatch(None, None, Some(true), None);
    assert ApplyPatch([t], "1", u) == [t.(done := true)];
  }
}
