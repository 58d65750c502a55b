/**
 * The transformations the task handlers apply to the collection: look a task
 * up by id, replace the tasks with an id, flip their completion, remove them,
 * and append the optimistic task of an add.
 */
module TaskOps {
  import opened Types
  import Seqs

  /** Some task of the collection carries `id`. */
  predicate HasId(tasks: seq<Task>, id: int)
  {
    exists i :: 0 <= i < |tasks| && tasks[i].id == id
  }

  /** `tasks.find(t => t.id === id)`: the first task with `id`, if any. */
  function FindById(tasks: seq<Task>, id: int): (r: Option<Task>)
    ensures r.None? <==> !HasId(tasks, id)
    ensures r.Some? ==> exists i :: 0 <= i < |tasks| && tasks[i] == r.value && r.value.id == id
                                    && forall j :: 0 <= j < i ==> tasks[j].id != id
  {
    if tasks == [] then None
    else if tasks[0].id == id then Some(tasks[0])
    else
      var r := FindById(tasks[1..], id);
      assert HasId(tasks, id) ==> HasId(tasks[1..], id) by {
        if HasId(tasks, id) {
          var i :| 0 <= i < |tasks| && tasks[i].id == id;
          assert tasks[1..][i - 1].id == id;
        }
      }
      assert r.Some? ==> exists i :: 0 <= i < |tasks| && tasks[i] == r.value && r.value.id == id
                                     && forall j :: 0 <= j < i ==> tasks[j].id != id by {
        if r.Some? {
          var i :| 0 <= i < |tasks[1..]| && tasks[1..][i] == r.value && r.value.id == id
                   && forall j :: 0 <= j < i ==> tasks[1..][j].id != id;
          assert tasks[i + 1] == r.value;
          assert forall j :: 1 <= j < i + 1 ==> tasks[j].id == tasks[1..][j - 1].id;
        }
      }
      r
  }

  /** The task the optimistic step of an add appends. */
  function OptimisticTask(tempId: int, text: string): Task
  {
    Task(tempId, text, false)
  }

  /** The test `t => t.id !== id`. */
  function NotId(id: int): Task -> bool
  {
    (t: Task) => t.id != id
  }

  /** `tasks.filter(t => t.id !== id)`: every task with `id` removed. */
  function WithoutId(tasks: seq<Task>, id: int): (r: seq<Task>)
    ensures forall t :: t in r <==> t in tasks && t.id != id
    ensures forall t :: multiset(r)[t] == if t.id != id then multiset(tasks)[t] else 0
    ensures Seqs.IsSubsequence(r, tasks)
    ensures !HasId(tasks, id) ==> r == tasks
  {
    Seqs.FilterIsSubsequence(NotId(id), tasks);
    Seqs.FilterKeepsAll(NotId(id), tasks);
    Seqs.FilterMultiplicities(NotId(id), tasks);
    Seqs.Filter(NotId(id), tasks)
  }

  /** `tasks.map(t => t.id === id ? newTask : t)`: every task with `id` replaced by `newTask`. */
  function ReplaceId(tasks: seq<Task>, id: int, newTask: Task): (r: seq<Task>)
    ensures |r| == |tasks|
    ensures forall i :: 0 <= i < |tasks| && tasks[i].id == id ==> r[i] == newTask
    ensures forall i :: 0 <= i < |tasks| && tasks[i].id != id ==> r[i] == tasks[i]
    ensures !HasId(tasks, id) ==> r == tasks
  {
    Seqs.Map((t: Task) => if t.id == id then newTask else t, tasks)
  }

  /** `tasks.map(t => t.id === id ? {...t, completed: !t.completed} : t)`. */
  function ToggleId(tasks: seq<Task>, id: int): (r: seq<Task>)
    ensures |r| == |tasks|
    ensures forall i :: 0 <= i < |tasks| ==> r[i].id == tasks[i].id && r[i].text == tasks[i].text
    ensures forall i :: 0 <= i < |tasks| ==>
              r[i].completed == (if tasks[i].id == id then !tasks[i].completed else tasks[i].completed)
    ensures !HasId(tasks, id) ==> r == tasks
  {
    Seqs.Map((t: Task) => if t.id == id then t.(completed := !t.completed) else t, tasks)
  }

  /** Toggling the same id twice gives the collection back. */
  lemma ToggleTwice(tasks: seq<Task>, id: int)
    ensures ToggleId(ToggleId(tasks, id), id) == tasks
  {
    var once := ToggleId(tasks, id);
    var twice := ToggleId(once, id);
    forall i | 0 <= i < |tasks|
      ensures twice[i] == tasks[i]
    {
      assert once[i].id == tasks[i].id;
    }
  }

  /** Toggling keeps the set of ids. */
  lemma ToggleKeepsIds(tasks: seq<Task>, id: int, other: int)
    ensures HasId(ToggleId(tasks, id), other) <==> HasId(tasks, other)
  {
    var r := ToggleId(tasks, id);
    if HasId(tasks, other) {
      var i :| 0 <= i < |tasks| && tasks[i].id == other;
      assert r[i].id == other;
    }
    if HasId(r, other) {
      var i :| 0 <= i < |r| && r[i].id == other;
      assert tasks[i].id == other;
    }
  }

  /**
   * Add, then roll back: with a temporary id that no task had, removing it
   * again gives exactly the collection from before the add.
   */
  lemma AddThenRollback(tasks: seq<Task>, tempId: int, text: string)
    requires !HasId(tasks, tempId)
    ensures WithoutId(tasks + [OptimisticTask(tempId, text)], tempId) == tasks
  {
    var opt := OptimisticTask(tempId, text);
    Seqs.FilterConcat(NotId(tempId), tasks, [opt]);
    assert [opt][1..] == [];
    assert Seqs.Filter(NotId(tempId), [opt]) == [];
    assert Seqs.Filter(NotId(tempId), tasks) == WithoutId(tasks, tempId) == tasks;
  }

  /**
   * Add, then confirm: with a temporary id that no task had, the server's
   * task takes the optimistic task's place at the end of the collection.
   */
  lemma AddThenConfirm(tasks: seq<Task>, tempId: int, text: string, newTask: Task)
    requires !HasId(tasks, tempId)
    ensures ReplaceId(tasks + [OptimisticTask(tempId, text)], tempId, newTask) == tasks + [newTask]
  {
    var before := tasks + [OptimisticTask(tempId, text)];
    var r := ReplaceId(before, tempId, newTask);
    forall i | 0 <= i < |tasks|
      ensures r[i] == tasks[i]
    {
      assert before[i] == tasks[i];
    }
    assert before[|tasks|].id == tempId;
  }

  /**
   * The rollback of an add removes by id, so when the temporary id collides
   * with an existing task that task is lost as well: the result is shorter
   * than the collection from before the add.
   */
  lemma CollidingAddRollbackLosesTask(tasks: seq<Task>, tempId: int, text: string)
    requires HasId(tasks, tempId)
    ensures |WithoutId(tasks + [OptimisticTask(tempId, text)], tempId)| < |tasks|
  {
    var opt := OptimisticTask(tempId, text);
    Seqs.FilterConcat(NotId(tempId), tasks, [opt]);
    assert Seqs.Filter(NotId(tempId), [opt]) == [];
    var i :| 0 <= i < |tasks| && tasks[i].id == tempId;
    Seqs.FilterDropsFailing(NotId(tempId), tasks, tasks[i]);
  }
}
