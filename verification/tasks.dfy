/**
 * Task records and the pure list transformations behind the task store's
 * `removeTask` and `completeTask`.
 */
module Tasks {
  import opened Wrappers
  import opened Seqs
  import opened Calendar

  /**
   * A task. `tags` holds tag NAMES; `startDate` is the due instant of a
   * one-time task or the next occurrence of a recurring one, `None` when it
   * was saved as `null`.
   */
  datatype Task = Task(
    id: string,
    title: string,
    bucketId: string,
    tags: seq<string>,
    isRecurring: bool,
    recurringDetails: string,
    startDate: Option<int>,
    notes: string)

  /** `new Date(task.startDate)`: a `null` date is the epoch. */
  function Instant(d: Option<int>): (t: int)
    ensures d.Some? ==> t == d.value
    ensures d.None? ==> t == 0
  {
    d.GetOr(0)
  }

  /** The list after `removeTask(id)`: the tasks with another id, in order. */
  function RemovedTasks(tasks: seq<Task>, id: string): (r: seq<Task>)
    ensures forall t :: t in r <==> t in tasks && t.id != id
  {
    Filter(tasks, (t: Task) => t.id != id)
  }

  /** Removing an id no task has changes nothing. */
  lemma RemoveTaskAbsentIsNoOp(tasks: seq<Task>, id: string)
    requires forall t :: t in tasks ==> t.id != id
    ensures RemovedTasks(tasks, id) == tasks
  {
    FilterKeepsAll(tasks, (t: Task) => t.id != id);
  }

  /** Removing twice is removing once. */
  lemma RemoveTaskIdempotent(tasks: seq<Task>, id: string)
    ensures RemovedTasks(RemovedTasks(tasks, id), id) == RemovedTasks(tasks, id)
  {
    RemoveTaskAbsentIsNoOp(RemovedTasks(tasks, id), id);
  }

  /** Removal keeps the order of the remaining tasks: it distributes over concatenation. */
  lemma RemoveTaskKeepsOrder(a: seq<Task>, b: seq<Task>, id: string)
    ensures RemovedTasks(a + b, id) == RemovedTasks(a, id) + RemovedTasks(b, id)
  {
    FilterAppend(a, b, (t: Task) => t.id != id);
  }

  /** `tasks.find(task => task.id === id)`: the position of the first task with that id. */
  function FirstIndex(tasks: seq<Task>, id: string): (r: Option<nat>)
    ensures r.None? <==> forall t :: t in tasks ==> t.id != id
    ensures r.Some? ==> r.value < |tasks| && tasks[r.value].id == id
                        && forall j :: 0 <= j < r.value ==> tasks[j].id != id
  {
    if tasks == [] then None
    else if tasks[0].id == id then Some(0)
    else match FirstIndex(tasks[1..], id)
      case None => None
      case Some(k) => Some(k + 1)
  }

  /**
   * The instant of the next occurrence: `setDate(getDate() + 1)` for Daily,
   * `setDate(getDate() + 7)` for Weekly, `setMonth(getMonth() + 1)` for
   * Monthly, and the same instant for any other recurrence.
   */
  function NextOccurrence(t: int, recurrence: string): (r: int)
    ensures recurrence == "Daily" ==> r == t + DayMs
    ensures recurrence == "Weekly" ==> r == t + 7 * DayMs
    ensures recurrence == "Monthly" ==> r == t + MonthLength(ToCivil(t).year, ToCivil(t).month) * DayMs
    ensures recurrence != "Daily" && recurrence != "Weekly" && recurrence != "Monthly" ==> r == t
  {
    if recurrence == "Daily" then
      SetDateShift(t, 1);
      SetDate(t, DayOfMonth(t) + 1)
    else if recurrence == "Weekly" then
      SetDateShift(t, 7);
      SetDate(t, DayOfMonth(t) + 7)
    else if recurrence == "Monthly" then
      SetMonthNextShift(t);
      SetMonth(t, MonthIndex(t) + 1)
    else t
  }

  /**
   * A Monthly task completed on day `d` is next due on day `d` of the
   * following month, or, when that month is shorter, on the surplus day of
   * the month after it, at the same time of day.
   */
  lemma MonthlyNextOccurrence(t: int)
    ensures var c := ToCivil(t);
            var next := NextMonth(c.year, c.month);
            var after := NextMonth(next.0, next.1);
            ToCivil(NextOccurrence(t, "Monthly"))
            == if c.day <= MonthLength(next.0, next.1)
               then CivilTime(next.0, next.1, c.day, c.msOfDay)
               else CivilTime(after.0, after.1, c.day - MonthLength(next.0, next.1), c.msOfDay)
  {
    SetMonthNext(t);
  }

  /** `{ ...task, startDate: nextDate.toISOString() }`. */
  function Advanced(t: Task): (r: Task)
    ensures r == t.(startDate := r.startDate)
    ensures r.startDate == Some(NextOccurrence(Instant(t.startDate), t.recurringDetails))
    ensures t.recurringDetails == "Daily" || t.recurringDetails == "Weekly" || t.recurringDetails == "Monthly"
            ==> Instant(r.startDate) > Instant(t.startDate)
  {
    t.(startDate := Some(NextOccurrence(Instant(t.startDate), t.recurringDetails)))
  }

  /** `tasks.map(task => task.id === id ? u : task)`. */
  function ReplacedTasks(tasks: seq<Task>, id: string, u: Task): (r: seq<Task>)
    ensures |r| == |tasks|
    ensures forall i :: 0 <= i < |r| ==> r[i] == if tasks[i].id == id then u else tasks[i]
  {
    if tasks == [] then []
    else [if tasks[0].id == id then u else tasks[0]] + ReplacedTasks(tasks[1..], id, u)
  }

  /**
   * The list after `completeTask(id)`: unchanged for an unknown id; for a
   * one-time task every task with that id is removed; for a recurring task
   * every task with that id is replaced by the first one advanced to its
   * next occurrence.
   */
  function Completed(tasks: seq<Task>, id: string): (r: seq<Task>)
    ensures |r| <= |tasks|
    ensures forall t :: t in r && t.id != id ==> t in tasks
    ensures forall t :: t in tasks && t.id != id ==> t in r
  {
    match FirstIndex(tasks, id)
    case None => tasks
    case Some(k) =>
      if !tasks[k].isRecurring then RemovedTasks(tasks, id)
      else
        var r := ReplacedTasks(tasks, id, Advanced(tasks[k]));
        assert forall t :: t in tasks && t.id != id ==> t in r by {
          forall t | t in tasks && t.id != id ensures t in r {
            var i :| 0 <= i < |tasks| && tasks[i] == t;
            assert r[i] == t;
          }
        }
        r
  }

  /** Completing an id no task has leaves the list unchanged. */
  lemma CompleteUnknownIsNoOp(tasks: seq<Task>, id: string)
    requires forall t :: t in tasks ==> t.id != id
    ensures Completed(tasks, id) == tasks
  {
  }

  /** Completing a one-time task removes every task with its id and keeps the rest in order. */
  lemma CompleteOneTime(tasks: seq<Task>, id: string, k: nat)
    requires k < |tasks| && tasks[k].id == id && !tasks[k].isRecurring
    requires forall j :: 0 <= j < k ==> tasks[j].id != id
    ensures Completed(tasks, id) == RemovedTasks(tasks, id)
    ensures forall t :: t in Completed(tasks, id) <==> t in tasks && t.id != id
  {
    var f := FirstIndex(tasks, id);
    assert f.Some? by { assert tasks[k] in tasks; }
    assert f.value == k;
  }

  /**
   * Completing a recurring task keeps the length and every other task; each
   * task with its id becomes the first such task with only `startDate`
   * changed, to the next occurrence of its date.
   */
  lemma CompleteRecurring(tasks: seq<Task>, id: string, k: nat)
    requires k < |tasks| && tasks[k].id == id && tasks[k].isRecurring
    requires forall j :: 0 <= j < k ==> tasks[j].id != id
    ensures var r := Completed(tasks, id);
            && |r| == |tasks|
            && r[k].id == id
            && (forall i :: 0 <= i < |r| && tasks[i].id != id ==> r[i] == tasks[i])
            && (forall i :: 0 <= i < |r| && tasks[i].id == id ==>
                  r[i] == tasks[k].(startDate := Some(NextOccurrence(Instant(tasks[k].startDate), tasks[k].recurringDetails))))
  {
    var f := FirstIndex(tasks, id);
    assert f.Some? by { assert tasks[k] in tasks; }
    assert f.value == k;
  }

  /** Ids are unique in the list. */
  predicate UniqueIds(tasks: seq<Task>) {
    forall i, j :: 0 <= i < j < |tasks| ==> tasks[i].id != tasks[j].id
  }

  /**
   * With unique ids, completing a recurring task changes exactly its
   * `startDate`, in place: a Weekly task dated D is afterwards dated D plus
   * seven days, at the same position and with the same id.
   */
  lemma CompleteRecurringInPlace(tasks: seq<Task>, k: nat)
    requires UniqueIds(tasks) && k < |tasks| && tasks[k].isRecurring
    ensures var r := Completed(tasks, tasks[k].id);
            && |r| == |tasks|
            && r[k] == tasks[k].(startDate := Some(NextOccurrence(Instant(tasks[k].startDate), tasks[k].recurringDetails)))
            && forall i :: 0 <= i < |r| && i != k ==> r[i] == tasks[i]
  {
    CompleteRecurring(tasks, tasks[k].id, k);
  }
}
