/**
 * The task store held by the task provider: the list of tasks and the
 * operations the screens call on it.
 */
module TaskContext {
  import opened Wrappers
  import opened Tasks
  import opened TagsContext
  import Cue

  class TaskStore {
    var tasks: seq<Task>

    constructor ()
      ensures tasks == []
    {
      tasks := [];
    }

    /** `addTask`: appends the task as given (the caller supplies its id). */
    method AddTask(t: Task)
      modifies this
      ensures tasks == old(tasks) + [t]
    {
      tasks := tasks + [t];
    }

    /** `removeTask`: drops every task with that id. */
    method RemoveTask(id: string)
      modifies this
      ensures tasks == RemovedTasks(old(tasks), id)
    {
      tasks := RemovedTasks(tasks, id);
    }

    /**
     * `completeTask`: nothing for an unknown id; a one-time task is removed;
     * a recurring task is advanced to its next occurrence in place.
     */
    method CompleteTask(id: string)
      modifies this
      ensures tasks == Completed(old(tasks), id)
    {
      var found := FirstIndex(tasks, id);
      if found.None? {
        return;
      }
      var task := tasks[found.value];
      if !task.isRecurring {
        RemoveTask(id);
        return;
      }
      var next := NextOccurrence(Instant(task.startDate), task.recurringDetails);
      var updated := task.(startDate := Some(next));
      tasks := ReplacedTasks(tasks, id, updated);
    }

    /** `reorderTasks`: replaces the list when given an array (`Some`), else does nothing. */
    method ReorderTasks(newOrder: Option<seq<Task>>)
      modifies this
      ensures tasks == if newOrder.Some? then newOrder.value else old(tasks)
    {
      if newOrder.None? {
        return;
      }
      tasks := newOrder.value;
    }

    /** `getSortedTasks(tags, completedTasks)` over the held tasks at instant `now`. */
    function GetSortedTasks(tags: seq<Tag>, completed: seq<string>, now: int): (r: seq<Task>)
      reads this
      ensures r == Cue.SortedTasks(tasks, tags, completed, now)
      ensures forall t :: t in r ==> t in tasks && t.id !in completed
    {
      Cue.SortedTasks(tasks, tags, completed, now)
    }
  }
}
