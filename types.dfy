/** The planner's data records (src/types/index.ts). */
module Types {

  datatype Option<+T> = None | Some(value: T)

  /** The outcome of an operation that may throw: its value, or the error's message. */
  datatype Result<+T> = Ok(value: T) | Err(message: string)

  /** The three priority levels a task may carry. */
  datatype Priority = Low | Medium | High

  /** A task of a day's plan; `priority` is optional in the source, hence an Option. */
  datatype Task = Task(id: string, title: string, done: bool, priority: Option<Priority>)

  /** All plans: a date key ("YYYY-MM-DD") to the ordered list of that day's tasks. */
  type Plans = map<string, seq<Task>>

  /** `tasks.map(task => task.id)` */
  function Ids(tasks: seq<Task>): (r: seq<string>)
    ensures |r| == |tasks|
    ensures forall i :: 0 <= i < |tasks| ==> r[i] == tasks[i].id
  {
    if tasks == [] then [] else [tasks[0].id] + Ids(tasks[1..])
  }

  /** `a` is `b` with some elements left out and the rest kept in order (matched greedily from the front). */
  predicate Subsequence<T(==)>(a: seq<T>, b: seq<T>)
    decreases |b|
  {
    if a == [] then true
    else if b == [] then false
    else if a[0] == b[0] then Subsequence(a[1..], b[1..])
    else Subsequence(a, b[1..])
  }
}
