/** The values derived from the collection: the filtered list and the completed count. */
module Views {
  import opened Types
  import Seqs

  /** Whether a task passes the completion filter. */
  predicate Keeps(filter: TaskState, t: Task)
  {
    match filter
    case Active => !t.completed
    case Done => t.completed
    case All => true
  }

  /** The filter test as a function value. */
  function KeepFn(filter: TaskState): Task -> bool
  {
    (t: Task) => Keeps(filter, t)
  }

  /** `filteredTasks`: the tasks that pass the filter, in collection order. */
  function FilteredTasks(tasks: seq<Task>, filter: TaskState): (r: seq<Task>)
    ensures Seqs.IsSubsequence(r, tasks)
    ensures forall t :: t in r <==> t in tasks && Keeps(filter, t)
    ensures filter == All ==> r == tasks
    ensures forall t :: multiset(r)[t] == if Keeps(filter, t) then multiset(tasks)[t] else 0
  {
    Seqs.FilterMultiplicities(KeepFn(filter), tasks);
    Seqs.FilterIsSubsequence(KeepFn(filter), tasks);
    Seqs.FilterKeepsAll(KeepFn(filter), tasks);
    Seqs.Filter(KeepFn(filter), tasks)
  }

  /** The test `t => t.completed` of the completed count. */
  function IsCompleted(t: Task): bool
  {
    t.completed
  }

  /**
   * `completedCount`: the number of completed tasks in the whole collection.
   * It takes no filter, and equals the length of the `done` view.
   */
  function CompletedCount(tasks: seq<Task>): (n: nat)
    ensures n == |FilteredTasks(tasks, Done)|
    ensures n <= |tasks|
  {
    Seqs.FilterExtensional(IsCompleted, KeepFn(Done), tasks);
    |Seqs.Filter(IsCompleted, tasks)|
  }

  /**
   * The `active` and `done` views partition the collection: each task is in
   * exactly one of them, by its completion, and together they hold every
   * task as often as the collection does.
   */
  lemma ActiveDonePartition(tasks: seq<Task>)
    ensures |FilteredTasks(tasks, Active)| + |FilteredTasks(tasks, Done)| == |tasks|
    ensures multiset(FilteredTasks(tasks, Active)) + multiset(FilteredTasks(tasks, Done)) == multiset(tasks)
    ensures forall t :: t in tasks ==> (t in FilteredTasks(tasks, Active) <==> !t.completed)
    ensures forall t :: t in tasks ==> (t in FilteredTasks(tasks, Done) <==> t.completed)
  {
    Seqs.FilterPartition(KeepFn(Active), KeepFn(Done), tasks);
  }

  /** The completed count and the length of the `active` view add up to the collection's length. */
  lemma CompletedPlusActive(tasks: seq<Task>)
    ensures CompletedCount(tasks) + |FilteredTasks(tasks, Active)| == |tasks|
  {
    ActiveDonePartition(tasks);
  }

  /** The two-task example: `active` keeps the open task, `done` the finished one. */
  lemma TwoTaskExample()
    ensures FilteredTasks([Task(1, "a", false), Task(2, "b", true)], Active) == [Task(1, "a", false)]
    ensures FilteredTasks([Task(1, "a", false), Task(2, "b", true)], Done) == [Task(2, "b", true)]
    ensures CompletedCount([Task(1, "a", false), Task(2, "b", true)]) == 1
  {
    var ts := [Task(1, "a", false), Task(2, "b", true)];
    var tail := [Task(2, "b", true)];
    assert ts[1..] == tail;
    assert tail[1..] == [];
    assert Seqs.Filter(KeepFn(Active), tail) == [];
    assert Seqs.Filter(KeepFn(Done), tail) == tail;
  }
}
