/**
 * The in-memory state provider (src/context/AppContext.tsx). It holds the plans
 * dictionary, the user name and a loading flag; every change is made in memory
 * first and then the whole dictionary (or the name) is written to the store.
 * A failed write is rethrown to the caller (here: `ok == false`) without rolling
 * the in-memory change back.
 */
module AppContext {
  import opened Types
  import opened KeyValue
  import Storage

  const PlansKey: string := "@daily_planner_plans"
  const UsernameKey: string := "@daily_planner_username"

  /** What loadData hands to the setters: `None` where a setter is not called. */
  datatype Loaded = Loaded(plans: Option<Plans>, username: Option<string>)

  /**
   * loadData: both keys are read together; a failed read rejects the whole
   * `Promise.all`. A truthy plans text is parsed, and a text that does not
   * parse throws before the user name is looked at. A truthy user name is set.
   * The program writes only texts under the name key; a dictionary or an
   * unparsable value there, which it never writes, is read as no name.
   */
  function Load(items: map<string, Stored>, readFails: bool): (r: Loaded)
    ensures readFails ==> r == Loaded(None, None)
    ensures r.plans.Some? <==> !readFails && Lookup(items, PlansKey).PlansBlob?
    ensures r.plans.Some? ==> r.plans.value == Lookup(items, PlansKey).plans
    ensures r.username.Some? <==>
      && !readFails
      && Lookup(items, UsernameKey).Text? && Lookup(items, UsernameKey).s != ""
      && !PlansTextThrows(Lookup(items, PlansKey))
    ensures r.username.Some? ==> Lookup(items, UsernameKey) == Text(r.username.value)
  {
    if readFails then Loaded(None, None)
    else
      var p := Lookup(items, PlansKey);
      if PlansTextThrows(p) then Loaded(None, None)
      else
        var plans := if p.PlansBlob? then Some(p.plans) else None;
        var u := Lookup(items, UsernameKey);
        Loaded(plans, if u.Text? && u.s != "" then Some(u.s) else None)
  }

  /** A truthy plans text that JSON.parse rejects (an empty text is falsy and skipped). */
  predicate PlansTextThrows(v: Stored) {
    v.Corrupt? || (v.Text? && v.s != "")
  }

  /** updateTask's `dayTasks.map(task => task.id === taskId ? { ...task, done } : task)`. */
  function SetDone(tasks: seq<Task>, taskId: string, done: bool): (r: seq<Task>)
    ensures |r| == |tasks|
    ensures forall i :: 0 <= i < |tasks| ==>
      r[i] == if tasks[i].id == taskId then tasks[i].(done := done) else tasks[i]
  {
    if tasks == [] then []
    else [if tasks[0].id == taskId then tasks[0].(done := done) else tasks[0]] + SetDone(tasks[1..], taskId, done)
  }

  class AppProvider {
    var plans: Plans
    var username: Option<string>
    var isLoading: bool
    const store: Store

    /** The provider's initial state, before loadData has run. */
    constructor (store: Store)
      ensures this.store == store
      ensures plans == map[] && username == None && isLoading
    {
      this.store := store;
      plans := map[];
      username := None;
      isLoading := true;
    }

    /** loadData always ends with isLoading == false, whatever failed. */
    method LoadData(readFails: bool)
      modifies this
      ensures !isLoading
      ensures var r := Load(store.items, readFails);
        && plans == (if r.plans.Some? then r.plans.value else old(plans))
        && username == (if r.username.Some? then r.username else old(username))
    {
      var r := Load(store.items, readFails);
      if r.plans.Some? {
        plans := r.plans.value;
      }
      if r.username.Some? {
        username := r.username;
      }
      isLoading := false;
    }

    method SavePlan(date: string, tasks: seq<Task>, writeFails: bool) returns (ok: bool)
      modifies this, store
      ensures ok == !writeFails
      ensures plans == old(plans)[date := tasks]
      ensures username == old(username) && isLoading == old(isLoading)
      ensures store.items == if writeFails then old(store.items)
                             else old(store.items)[PlansKey := PlansBlob(plans)]
    {
      var newPlans := plans[date := tasks];
      plans := newPlans;
      ok := store.SetItem(PlansKey, PlansBlob(newPlans), writeFails);
    }

    method UpdateTask(date: string, taskId: string, done: bool, writeFails: bool) returns (ok: bool)
      modifies this, store
      ensures ok == !writeFails
      ensures plans == old(plans)[date := SetDone(Storage.PlanOf(old(plans), date), taskId, done)]
      ensures username == old(username) && isLoading == old(isLoading)
      ensures store.items == if writeFails then old(store.items)
                             else old(store.items)[PlansKey := PlansBlob(plans)]
    {
      var dayTasks := if date in plans then plans[date] else [];
      var updated := SetDone(dayTasks, taskId, done);
      var newPlans := plans[date := updated];
      plans := newPlans;
      ok := store.SetItem(PlansKey, PlansBlob(newPlans), writeFails);
    }

    method SetUsername(name: string, writeFails: bool) returns (ok: bool)
      modifies this, store
      ensures ok == !writeFails
      ensures username == Some(name)
      ensures plans == old(plans) && isLoading == old(isLoading)
      ensures store.items == if writeFails then old(store.items)
                             else old(store.items)[UsernameKey := Text(name)]
    {
      username := Some(name);
      ok := store.SetItem(UsernameKey, Text(name), writeFails);
    }
  }

  // ---------------------------------------------------------------------------
  // Properties

  /** The provider's done-toggle is the repository's updateTask patch with only `done` set. */
  lemma SetDoneIsDonePatch(tasks: seq<Task>, taskId: string, done: bool)
    ensures SetDone(tasks, taskId, done) == Storage.ApplyPatch(tasks, taskId, Storage.TaskPatch(None, None, Some(done), None))
  {
    var a := SetDone(tasks, taskId, done);
    var b := Storage.ApplyPatch(tasks, taskId, Storage.TaskPatch(None, None, Some(done), None));
    assert |a| == |b|;
    forall i | 0 <= i < |a| ensures a[i] == b[i] {}
  }

  /** The toggle keeps the list's ids, titles and priorities in place. */
  lemma SetDoneKeepsOrder(tasks: seq<Task>, taskId: string, done: bool)
    ensures Ids(SetDone(tasks, taskId, done)) == Ids(tasks)
    ensures forall i :: 0 <= i < |tasks| ==>
      SetDone(tasks, taskId, done)[i].title == tasks[i].title &&
      SetDone(tasks, taskId, done)[i].priority == tasks[i].priority
  {
    var r := SetDone(tasks, taskId, done);
    assert |Ids(r)| == |Ids(tasks)|;
    forall i | 0 <= i < |tasks| ensures Ids(r)[i] == Ids(tasks)[i] {}
  }

  /** What the provider writes is what loadData and the repository's getAllPlans read back. */
  lemma PersistedPlansReadBack(items: map<string, Stored>, p: Plans)
    ensures Load(items[PlansKey := PlansBlob(p)], false).plans == Some(p)
    ensures Storage.ReadPlans(items[PlansKey := PlansBlob(p)], false) == p
  {
  }

  /**
   * The provider keeps the name under another key than the repository's
   * saveUserName, so neither ever sees the other's value.
   */
  lemma UsernameKeysDiffer(items: map<string, Stored>, name: string)
    ensures UsernameKey != Storage.UserNameKey
    ensures Storage.ReadText(items[UsernameKey := Text(name)], Storage.UserNameKey, false)
         == Storage.ReadText(items, Storage.UserNameKey, false)
    ensures Load(items[Storage.UserNameKey := Text(name)], false).username == Load(items, false).username
  {
    assert UsernameKey[19] != Storage.UserNameKey[19];
  }

  /** A corrupt plans text keeps a stored user name from being restored. */
  lemma CorruptPlansHideUsername(items: map<string, Stored>, name: string)
    requires Lookup(items, PlansKey) == Corrupt
    ensures Load(items[UsernameKey := Text(name)], false) == Loaded(None, None)
  {
    assert Lookup(items[UsernameKey := Text(name)], PlansKey) == Corrupt by {
      assert UsernameKey[17] != PlansKey[17];
    }
  }
}
