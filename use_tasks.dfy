/**
 * The `useTasks` hook as an object: its state slots are fields, and each
 * asynchronous handler is split into the step it takes before the server
 * call and the steps it takes when that call resolves. The server's reply
 * (and the clock reading used as a temporary id) are parameters; a handler
 * method runs its steps back to back with nothing in between.
 */
module UseTasks {
  import opened Types
  import opened TaskOps
  import TaskForm
  import Views
  import Seqs

  /** The severity of a toast. */
  datatype Severity = Success | Error | Info

  /** The one-slot notification: whether it shows, its text and its severity. */
  datatype Snackbar = Snackbar(open: bool, message: string, severity: Severity)

  /** What a failed server call throws; `message` is missing when the error object has none. */
  datatype ApiError = ApiError(message: Option<string>)

  /** How a server call resolves: with its value, or by throwing. */
  datatype Reply<T> = Ok(value: T) | Failed(reason: ApiError)

  /** The error a failed load records when the thrown value carries no message. */
  const LoadFailedMessage: string := "Failed to load tasks."

  class TaskStore {
    var tasks: seq<Task>
    var loading: bool
    var error: Option<string>
    var retrying: bool
    var filter: TaskState
    var snackbar: Snackbar

    /** The initial state: no tasks, loading, no error, filter `all`, toast closed. */
    constructor ()
      ensures tasks == [] && loading && error == None && !retrying && filter == All
      ensures snackbar == Snackbar(false, "", Info)
    {
      tasks := [];
      loading := true;
      error := None;
      retrying := false;
      filter := All;
      snackbar := Snackbar(false, "", Info);
    }

    /** `filteredTasks`: the tasks the current filter shows, in collection order. */
    function FilteredTasks(): (r: seq<Task>)
      reads this
      ensures Seqs.IsSubsequence(r, tasks)
      ensures forall t :: t in r <==> t in tasks && Views.Keeps(filter, t)
      ensures filter == All ==> r == tasks
      ensures forall t :: multiset(r)[t] == if Views.Keeps(filter, t) then multiset(tasks)[t] else 0
    {
      Views.FilteredTasks(tasks, filter)
    }

    /** `completedCount`: completed tasks of the whole collection, whatever the filter. */
    function CompletedCount(): (n: nat)
      reads this
      ensures n == |Views.FilteredTasks(tasks, Done)|
      ensures n + |Views.FilteredTasks(tasks, Active)| == |tasks|
    {
      Views.CompletedPlusActive(tasks);
      Views.CompletedCount(tasks)
    }

    /** `setFilter`: only the filter changes, so the completed count stays. */
    method SetFilter(f: TaskState)
      modifies this`filter
      ensures filter == f
      ensures CompletedCount() == old(CompletedCount())
    {
      filter := f;
    }

    /** `showToast`: the snackbar opens with the message and severity, replacing any previous one. */
    method ShowToast(message: string, severity: Severity)
      modifies this`snackbar
      ensures snackbar == Snackbar(true, message, severity)
    {
      snackbar := Snackbar(true, message, severity);
    }

    /** `handleCloseSnackbar`: the snackbar closes and keeps its message and severity. */
    method CloseSnackbar()
      modifies this`snackbar
      ensures !snackbar.open
      ensures snackbar.message == old(snackbar.message) && snackbar.severity == old(snackbar.severity)
    {
      snackbar := snackbar.(open := false);
    }

    // ---------------------------------------------------------------- load

    /** The start of `loadTasks`: raise the flag `isRetry` picks and clear the error. */
    method BeginLoad(isRetry: bool)
      modifies this`loading, this`retrying, this`error
      ensures isRetry ==> retrying && loading == old(loading)
      ensures !isRetry ==> loading && retrying == old(retrying)
      ensures error == None
    {
      if isRetry {
        retrying := true;
      } else {
        loading := true;
      }
      error := None;
    }

    /** The `finally` of `loadTasks`: lower the flag `isRetry` picks. */
    method EndLoad(isRetry: bool)
      modifies this`loading, this`retrying
      ensures isRetry ==> !retrying && loading == old(loading)
      ensures !isRetry ==> !loading && retrying == old(retrying)
    {
      if isRetry {
        retrying := false;
      } else {
        loading := false;
      }
    }

    /**
     * `loadTasks` when the fetch resolves: the collection is replaced
     * wholesale, a retry announces "Tasks refreshed", and the flag is lowered.
     */
    method OnLoadSuccess(isRetry: bool, apiTasks: seq<Task>)
      modifies this`tasks, this`loading, this`retrying, this`snackbar
      ensures tasks == apiTasks
      ensures isRetry ==> snackbar == Snackbar(true, "Tasks refreshed", Success)
      ensures !isRetry ==> snackbar == old(snackbar)
      ensures isRetry ==> !retrying && loading == old(loading)
      ensures !isRetry ==> !loading && retrying == old(retrying)
    {
      tasks := apiTasks;
      if isRetry {
        ShowToast("Tasks refreshed", Success);
      }
      EndLoad(isRetry);
    }

    /**
     * `loadTasks` when the fetch throws: the collection is left as it was,
     * the error slot gets the message or the default text, and the flag is lowered.
     */
    method OnLoadFailure(isRetry: bool, reason: ApiError)
      modifies this`error, this`loading, this`retrying
      ensures error == Some(reason.message.GetOr(LoadFailedMessage))
      ensures reason.message.Some? ==> error == reason.message
      ensures isRetry ==> !retrying && loading == old(loading)
      ensures !isRetry ==> !loading && retrying == old(retrying)
    {
      error := Some(reason.message.GetOr(LoadFailedMessage));
      EndLoad(isRetry);
    }

    /** The whole of `loadTasks(isRetry)` when the fetch resolves with `reply`. */
    method LoadTasks(isRetry: bool, reply: Reply<seq<Task>>)
      modifies this`tasks, this`loading, this`retrying, this`error, this`snackbar
      ensures reply.Ok? ==> tasks == reply.value && error == None
      ensures reply.Failed? ==> tasks == old(tasks) && error == Some(reply.reason.message.GetOr(LoadFailedMessage))
      ensures snackbar == if reply.Ok? && isRetry then Snackbar(true, "Tasks refreshed", Success) else old(snackbar)
      ensures isRetry ==> !retrying && loading == old(loading)
      ensures !isRetry ==> !loading && retrying == old(retrying)
    {
      BeginLoad(isRetry);
      match reply
      case Ok(apiTasks) => OnLoadSuccess(isRetry, apiTasks);
      case Failed(reason) => OnLoadFailure(isRetry, reason);
    }

    // ----------------------------------------------------------------- add

    /**
     * The optimistic step of `handleAddTask`: append the new task under the
     * temporary id, earlier tasks untouched, and announce "Task added". The
     * form submits only text that does not trim to nothing.
     */
    method BeginAdd(text: string, tempId: int)
      requires !TaskForm.IsBlank(text)
      modifies this`tasks, this`snackbar
      ensures tasks == old(tasks) + [OptimisticTask(tempId, text)]
      ensures snackbar == Snackbar(true, "Task added", Success)
    {
      tasks := tasks + [OptimisticTask(tempId, text)];
      ShowToast("Task added", Success);
    }

    /** `handleAddTask` when the server answers: every task with the temporary id becomes the server's task. */
    method OnAddSuccess(tempId: int, newTask: Task)
      modifies this`tasks
      ensures tasks == ReplaceId(old(tasks), tempId, newTask)
    {
      tasks := ReplaceId(tasks, tempId, newTask);
    }

    /**
     * `handleAddTask` when the server call throws: the error slot gets the
     * message, every task with the temporary id is removed, and
     * "Failed to add task" is shown.
     */
    method OnAddFailure(tempId: int, reason: ApiError)
      modifies this`tasks, this`error, this`snackbar
      ensures tasks == WithoutId(old(tasks), tempId)
      ensures error == reason.message
      ensures snackbar == Snackbar(true, "Failed to add task", Error)
    {
      error := reason.message;
      tasks := WithoutId(tasks, tempId);
      ShowToast("Failed to add task", Error);
    }

    /**
     * The whole of `handleAddTask(text)` with clock reading `tempId` and
     * server reply `reply`. With a temporary id no task had, success leaves
     * the server's task at the end and failure restores the collection.
     */
    method HandleAddTask(text: string, tempId: int, reply: Reply<Task>)
      requires !TaskForm.IsBlank(text)
      modifies this`tasks, this`error, this`snackbar
      ensures reply.Ok? ==> tasks == ReplaceId(old(tasks) + [OptimisticTask(tempId, text)], tempId, reply.value)
      ensures reply.Ok? ==> error == old(error) && snackbar == Snackbar(true, "Task added", Success)
      ensures reply.Ok? && !HasId(old(tasks), tempId) ==> tasks == old(tasks) + [reply.value]
      ensures reply.Failed? ==> tasks == WithoutId(old(tasks) + [OptimisticTask(tempId, text)], tempId)
      ensures reply.Failed? ==> error == reply.reason.message && snackbar == Snackbar(true, "Failed to add task", Error)
      ensures reply.Failed? && !HasId(old(tasks), tempId) ==> tasks == old(tasks)
    {
      BeginAdd(text, tempId);
      match reply
      case Ok(newTask) =>
        OnAddSuccess(tempId, newTask);
        if !HasId(old(tasks), tempId) {
          AddThenConfirm(old(tasks), tempId, text, newTask);
        }
      case Failed(reason) =>
        OnAddFailure(tempId, reason);
        if !HasId(old(tasks), tempId) {
          AddThenRollback(old(tasks), tempId, text);
        }
    }

    // -------------------------------------------------------------- toggle

    /**
     * The optimistic step of `handleToggleTask(id)`: snapshot the collection
     * and look the task up. Without a task of that id nothing changes and no
     * request is made. Otherwise every task with the id flips, "Task updated"
     * is shown, and the request asks for the negation of the first such
     * task's completion.
     */
    method BeginToggle(id: int) returns (snapshot: seq<Task>, request: Option<bool>)
      modifies this`tasks, this`snackbar
      ensures snapshot == old(tasks)
      ensures request.None? <==> !HasId(old(tasks), id)
      ensures request.None? ==> tasks == old(tasks) && snackbar == old(snackbar)
      ensures request.Some? ==> FindById(old(tasks), id).Some?
                                && request.value == !FindById(old(tasks), id).value.completed
      ensures request.Some? ==> tasks == ToggleId(old(tasks), id)
                                && snackbar == Snackbar(true, "Task updated", Info)
    {
      snapshot := tasks;
      var task := FindById(tasks, id);
      if task.None? {
        request := None;
        return;
      }
      tasks := ToggleId(tasks, id);
      ShowToast("Task updated", Info);
      request := Some(!task.value.completed);
    }

    /**
     * `handleToggleTask` when the server call throws: the error slot gets
     * the message, the collection is set back to the snapshot, and
     * "Failed to update task" is shown.
     */
    method OnToggleFailure(snapshot: seq<Task>, reason: ApiError)
      modifies this`tasks, this`error, this`snackbar
      ensures tasks == snapshot
      ensures error == reason.message
      ensures snackbar == Snackbar(true, "Failed to update task", Error)
    {
      error := reason.message;
      tasks := snapshot;
      ShowToast("Failed to update task", Error);
    }

    /**
     * The whole of `handleToggleTask(id)` with server reply `reply` (a
     * successful reply changes nothing further). A missing id leaves every
     * slot as it was; a failure restores the collection exactly.
     */
    method HandleToggleTask(id: int, reply: Reply<Task>) returns (request: Option<bool>)
      modifies this`tasks, this`error, this`snackbar
      ensures request.None? <==> !HasId(old(tasks), id)
      ensures !HasId(old(tasks), id) ==> tasks == old(tasks) && error == old(error) && snackbar == old(snackbar)
      ensures request.Some? ==> FindById(old(tasks), id).Some?
                                && request.value == !FindById(old(tasks), id).value.completed
      ensures HasId(old(tasks), id) && reply.Ok? ==>
                tasks == ToggleId(old(tasks), id) && error == old(error)
                && snackbar == Snackbar(true, "Task updated", Info)
      ensures HasId(old(tasks), id) && reply.Failed? ==>
                tasks == old(tasks) && error == reply.reason.message
                && snackbar == Snackbar(true, "Failed to update task", Error)
    {
      var snapshot;
      snapshot, request := BeginToggle(id);
      if request.Some? && reply.Failed? {
        OnToggleFailure(snapshot, reply.reason);
      }
    }

    // -------------------------------------------------------------- delete

    /**
     * The optimistic step of `handleDeleteTask(id)`: snapshot the
     * collection, remove every task with the id (none when it is absent),
     * and show "Task deleted" in either case.
     */
    method BeginDelete(id: int) returns (snapshot: seq<Task>)
      modifies this`tasks, this`snackbar
      ensures snapshot == old(tasks)
      ensures tasks == WithoutId(old(tasks), id)
      ensures snackbar == Snackbar(true, "Task deleted", Info)
    {
      snapshot := tasks;
      tasks := WithoutId(tasks, id);
      ShowToast("Task deleted", Info);
    }

    /**
     * `handleDeleteTask` when the server call throws: the error slot gets
     * the message, the collection is set back to the snapshot, and
     * "Failed to delete task" is shown.
     */
    method OnDeleteFailure(snapshot: seq<Task>, reason: ApiError)
      modifies this`tasks, this`error, this`snackbar
      ensures tasks == snapshot
      ensures error == reason.message
      ensures snackbar == Snackbar(true, "Failed to delete task", Error)
    {
      error := reason.message;
      tasks := snapshot;
      ShowToast("Failed to delete task", Error);
    }

    /**
     * The whole of `handleDeleteTask(id)` with server reply `reply`: success
     * keeps the removal, failure restores the collection exactly.
     */
    method HandleDeleteTask(id: int, reply: Reply<()>)
      modifies this`tasks, this`error, this`snackbar
      ensures reply.Ok? ==> tasks == WithoutId(old(tasks), id) && error == old(error)
                            && snackbar == Snackbar(true, "Task deleted", Info)
      ensures reply.Ok? && !HasId(old(tasks), id) ==> tasks == old(tasks)
      ensures reply.Failed? ==> tasks == old(tasks) && error == reply.reason.message
                                && snackbar == Snackbar(true, "Failed to delete task", Error)
    {
      var snapshot := BeginDelete(id);
      if reply.Failed? {
        OnDeleteFailure(snapshot, reply.reason);
      }
    }
  }

  /**
   * Scenario: a two-task list is loaded, then toggling task 2 fails on the
   * server. The request asked for `completed: true`, the list is back as it
   * was, the error holds the message, and the loading flag is down.
   */
  method ToggleRollbackScenario() returns (tasks: seq<Task>, error: Option<string>, loading: bool, request: Option<bool>)
    ensures tasks == [Task(1, "a", false), Task(2, "b", false)]
    ensures error == Some("Network Error") && !loading
    ensures request == Some(true)
  {
    var store := new TaskStore();
    store.LoadTasks(false, Ok([Task(1, "a", false), Task(2, "b", false)]));
    assert store.tasks[1].id == 2;
    request := store.HandleToggleTask(2, Failed(ApiError(Some("Network Error"))));
    tasks, error, loading := store.tasks, store.error, store.loading;
  }

  /** The text of the add scenario passes the form's guard. */
  lemma BuyMilkIsNotBlank()
    ensures !TaskForm.IsBlank("buy milk")
  {
    var text := "buy milk";
    assert text[0] == 'b';
    TaskForm.BlankIffAllWhiteSpace(text);
  }

  /**
   * Scenario: adding "buy milk" to an empty list shows the optimistic task
   * at once, and the server's task once the server answers.
   */
  method AddScenario(tempId: int, serverTask: Task) returns (optimistic: seq<Task>, confirmed: seq<Task>)
    ensures optimistic == [Task(tempId, "buy milk", false)]
    ensures confirmed == [serverTask]
  {
    var store := new TaskStore();
    BuyMilkIsNotBlank();
    store.BeginAdd("buy milk", tempId);
    optimistic := store.tasks;
    store.OnAddSuccess(tempId, serverTask);
    confirmed := store.tasks;
  }
}
