# Task tracker: the `useTasks` task store

This project models the client-side task store of a small task-tracking web
app: the `useTasks` hook in `src/hooks/useTasks.ts`. The hook holds:

- the task collection (`Task` records of `src/types.ts`);
- a `loading` and a `retrying` flag;
- an optional error message;
- the completion filter (`all | active | done`);
- a one-slot snackbar (open flag, message, severity).

Its handlers change the collection optimistically:

- **load** replaces the collection;
- **add** appends a task under a temporary id, then either swaps in the server's task or removes it again;
- **toggle** and **delete** snapshot the collection, change it, and restore the snapshot if the server call fails.

Two values are derived from the collection: the filtered view and the completed count.

Layout, one module per concern:

- `seqs.dfy` (`Seqs`): `Filter` and `Map` with the meaning of JavaScript's `Array.prototype.filter` / `map`, the order-preserving subsequence relation, and lemmas about them (concatenation, partition, multiplicity, extensionality).
- `types.dfy` (`Types`): `Task`, `TaskState` and `Option` (a missing value, `null`/`undefined` in the source).
- `task_form.dfy` (`TaskForm`): `String.prototype.trim` as `Trim`, and the form's guard `!text.trim()` as `IsBlank`. It is used only as the precondition of an add, because the hook itself does not re-check the text.
- `task_ops.dfy` (`TaskOps`): the collection transformations inside the handlers (`find`, `filter` by id, `map` replace, `map` toggle), plus lemmas about add-then-rollback and add-then-confirm.
- `views.dfy` (`Views`): `filteredTasks` and `completedCount`, and the partition lemmas.
- `use_tasks.dfy` (`UseTasks`): class `TaskStore`. Its fields are the hook's state slots. Each async handler is split into its optimistic `Begin…` step and its `On…Success` / `On…Failure` continuations. A `Handle…` / `LoadTasks` method runs the handler start to finish. The server's reply (`Reply<T> = Ok(value) | Failed(ApiError(message))`) and the clock reading used as the temporary id are parameters.

The collection is modelled as a value (`seq<Task>`) that each step reassigns, as the hook does through its setters. Each method's `modifies` clause names exactly the fields it may change, so every other slot is unchanged by construction.

Points where the code's behaviour is easy to misread, and which the model follows:

- `src/App.tsx:23-32` destructures `paginatedTasks`, `totalPages`, `page`, `perPage`, `search` and `sortBy`. `useTasks` neither computes nor returns them (src/hooks/useTasks.ts:152-168), so search, sorting and pagination are not modelled.
- Ids are never checked for uniqueness, including the temporary id from `Date.now()`. The model does not assume they are unique. Exact rollback and "confirmed task at the end" are proved only for a temporary id that no task has. `CollidingAddRollbackLosesTask` shows that with a colliding id the rollback also removes the existing task.
- `map`/`filter` act on every task with the id, not only the first. The model does the same. The toggle request is `!task.completed` of the first match (`find`).
- For add, toggle and delete failures the code stores `e.message` as it is (it may be missing). Only load substitutes `'Failed to load tasks.'`, via `??`.

## Model

| member | source | states |
|---|---|---|
| TaskForm.IsJsWhiteSpace | src/components/TaskForm.tsx:13 | the characters `trim` removes, exactly ECMAScript's WhiteSpace and LineTerminator sets (a definition, no contract) |
| TaskForm.TrimStart | src/components/TaskForm.tsx:13 | the result is a suffix of the text, every removed character is one `trim` removes, and the result does not start with one |
| TaskForm.TrimEnd | src/components/TaskForm.tsx:13 | the result is a prefix of the text, every removed character is one `trim` removes, and the result does not end with one |
| TaskForm.Trim | src/components/TaskForm.tsx:13 | `text.trim()`: the result is a contiguous slice `text[a..b]` of the text; everything before `a` and from `b` on is white space `trim` removes, and the slice neither starts nor ends with such a character |
| TaskForm.IsBlank | src/components/TaskForm.tsx:13 | `!text.trim()`, the guard that stops the form from submitting (a definition, no contract) |
| TaskForm.BlankIffAllWhiteSpace | src/components/TaskForm.tsx:13 | a text is blank exactly when every one of its characters is removed by `trim` |
| Types.Option.GetOr | src/hooks/useTasks.ts:58 | the `??` operator: the value, or the default when it is missing (a definition, no contract) |
| TaskOps.OptimisticTask | src/hooks/useTasks.ts:75-79 | the literal `{id: tempId, text, completed: false}` (a definition, no contract) |
| Views.Keeps | src/hooks/useTasks.ts:137-145 | the filter callback: `active` keeps open tasks, `done` keeps completed ones, `all` keeps every task (a definition, no contract) |
| TaskOps.FindById | src/hooks/useTasks.ts:98 | result is absent exactly when no task has the id; otherwise it is the first task with that id |
| TaskOps.WithoutId | src/hooks/useTasks.ts:91 | exactly the tasks without the id remain, each as often as before, as an order-preserving subsequence; an absent id leaves the collection unchanged |
| TaskOps.ReplaceId | src/hooks/useTasks.ts:86 | same length; positions holding the id now hold the server task, all other positions unchanged; an absent id is a no-op |
| TaskOps.ToggleId | src/hooks/useTasks.ts:104 | same length, ids and texts position by position; completion flips exactly at positions with the id; an absent id is a no-op |
| TaskOps.ToggleTwice | src/hooks/useTasks.ts:104 | toggling the same id twice restores the collection |
| TaskOps.ToggleKeepsIds | src/hooks/useTasks.ts:104 | toggling neither adds nor removes any id |
| TaskOps.AddThenRollback | src/hooks/useTasks.ts:80-91 | with a fresh temporary id, removing it after the optimistic append gives exactly the earlier collection |
| TaskOps.AddThenConfirm | src/hooks/useTasks.ts:80-86 | with a fresh temporary id, confirming the add yields the earlier collection followed by the server task |
| TaskOps.CollidingAddRollbackLosesTask | src/hooks/useTasks.ts:74-91 | with a temporary id already in use, the rollback leaves fewer tasks than before the add |
| Views.FilteredTasks | src/hooks/useTasks.ts:136-146 | the view is an order-preserving subsequence holding exactly the tasks that pass the filter, each passing task as many times as in the collection; `all` gives the whole collection |
| Views.CompletedCount | src/hooks/useTasks.ts:148-150 | the count, taken over the whole collection with no filter, equals the length of the `done` view and is at most the collection's length |
| Views.ActiveDonePartition | src/hooks/useTasks.ts:136-146 | `active` and `done` split the collection: lengths add up, multisets add up to the collection's, membership follows `completed` |
| Views.CompletedPlusActive | src/hooks/useTasks.ts:136-150 | completed count plus the length of the `active` view equals the collection's length |
| Views.TwoTaskExample | src/hooks/useTasks.ts:136-150 | on `[{1,a,open},{2,b,done}]`: `active` keeps task 1, `done` keeps task 2, the count is 1 |
| UseTasks.TaskStore.constructor | src/hooks/useTasks.ts:14-25 | initially: no tasks, loading, no error, not retrying, filter `all`, snackbar closed with empty message and severity info |
| UseTasks.TaskStore.FilteredTasks | src/hooks/useTasks.ts:136-146 | the store's view is a subsequence of its tasks holding exactly those that pass its filter, with their multiplicities; `all` gives every task |
| UseTasks.TaskStore.CompletedCount | src/hooks/useTasks.ts:148-150 | the store's count is the length of the `done` view of all its tasks and adds up with the `active` view to the total |
| UseTasks.TaskStore.SetFilter | src/hooks/useTasks.ts:18 | only the filter changes, and the completed count is the same before and after |
| UseTasks.TaskStore.ShowToast | src/hooks/useTasks.ts:27-33 | the snackbar opens with the given message and severity, replacing the previous one; nothing else changes |
| UseTasks.TaskStore.CloseSnackbar | src/hooks/useTasks.ts:35-40 | the snackbar closes and keeps its message and severity; nothing else changes |
| UseTasks.TaskStore.BeginLoad | src/hooks/useTasks.ts:43-49 | the flag chosen by `isRetry` is raised, the other is untouched, and the error is cleared |
| UseTasks.TaskStore.EndLoad | src/hooks/useTasks.ts:59-65 | the flag chosen by `isRetry` is lowered, the other is untouched |
| UseTasks.TaskStore.OnLoadSuccess | src/hooks/useTasks.ts:50-55 | the collection becomes the fetched one; "Tasks refreshed"/success shows only on a retry; the chosen flag is lowered |
| UseTasks.TaskStore.OnLoadFailure | src/hooks/useTasks.ts:57-65 | the collection is untouched; the error is the thrown message, or 'Failed to load tasks.' when it has none; the chosen flag is lowered |
| UseTasks.TaskStore.LoadTasks | src/hooks/useTasks.ts:42-66 | success: collection replaced and error cleared; failure: collection untouched and error set; the chosen flag is lowered either way; the toast fires only on a successful retry |
| UseTasks.TaskStore.BeginAdd | src/hooks/useTasks.ts:73-81 | exactly the optimistic task is appended at the end, earlier tasks unchanged, and "Task added"/success shows; the text must not be blank |
| UseTasks.TaskStore.OnAddSuccess | src/hooks/useTasks.ts:84-86 | every task with the temporary id is replaced in place by the server task |
| UseTasks.TaskStore.OnAddFailure | src/hooks/useTasks.ts:88-92 | every task with the temporary id is removed; the error is the thrown message; "Failed to add task"/error shows |
| UseTasks.TaskStore.HandleAddTask | src/hooks/useTasks.ts:73-94 | end to end; with a fresh temporary id, success leaves the earlier tasks plus the server task and failure restores the earlier collection |
| UseTasks.TaskStore.BeginToggle | src/hooks/useTasks.ts:96-105 | the snapshot is the current collection; an absent id changes nothing and sends no request; otherwise matching tasks flip, "Task updated"/info shows, and the request is the negated completion of the first match |
| UseTasks.TaskStore.OnToggleFailure | src/hooks/useTasks.ts:110-115 | the collection becomes exactly the snapshot; the error is the thrown message; "Failed to update task"/error shows |
| UseTasks.TaskStore.HandleToggleTask | src/hooks/useTasks.ts:96-116 | an absent id leaves every slot as it was; success keeps the flip; failure restores the collection exactly and records the error |
| UseTasks.TaskStore.BeginDelete | src/hooks/useTasks.ts:118-123 | the snapshot is the current collection; every task with the id is removed; "Task deleted"/info shows even when the id is absent |
| UseTasks.TaskStore.OnDeleteFailure | src/hooks/useTasks.ts:128-133 | the collection becomes exactly the snapshot; the error is the thrown message; "Failed to delete task"/error shows |
| UseTasks.TaskStore.HandleDeleteTask | src/hooks/useTasks.ts:118-134 | success keeps the removal (a no-op for an absent id); failure restores the collection exactly and records the error |
| UseTasks.ToggleRollbackScenario | src/hooks/useTasks.ts:96-116 | scenario: toggling task 2 of a loaded two-task list fails; the request was `completed: true`, the list is restored and the error holds the message |
| UseTasks.AddScenario | src/hooks/useTasks.ts:73-86 | scenario: adding "buy milk" to an empty list shows exactly the optimistic task, then exactly the server's task |

## Left out

- Rendering (`src/App.tsx`, `src/components/TaskList.tsx`, `src/components/TaskFilter.tsx`) has no logic of its own. The form `src/components/TaskForm.tsx` is kept only as the blank-text precondition of an add.
- The HTTP client `src/api.ts` is not part of this model. Each call's outcome is a `Reply` parameter.
- `Date.now()` becomes the `tempId` parameter. Its freshness is assumed only where a lemma says so, because the code never checks it.
- The React lifecycle is not modelled: the initial load from `useEffect` (src/hooks/useTasks.ts:69-71) and the `useMemo` caching (the views are plain functions).
- Overlapping in-flight calls are not modelled; continuations run one after another. Toggle and delete read their snapshot from the render's `tasks` but update through `prev`; the model treats these as the same collection, which holds only when calls do not overlap.
- A thrown value that is not an object: the add, toggle and delete handlers read `e.message` without a guard. The model assumes the thrown value is an error object whose `message` may be missing.
- Search, sorting and pagination: `useTasks` does not implement them, so there is nothing to model.
- JavaScript numbers are modelled as unbounded integers. Ids are compared with `===` only, so floating point does not matter here.
