# Task list: verified model of the data layer and view models

This project models the core of an Android task-list app in Dafny. The app
stores tasks in a SQLite table through a Room DAO, keeps two filter
preferences (sort order, hide completed) in a DataStore, and has two view
models: one for the list screen and one for the add/edit screen.

Modules, in dependency order:

- `Wrappers` (`wrappers.dfy`): `Option` and `Result`.
- `TaskModel` (`task_model.dfy`): the `Task` row and the "no id yet" key 0.
- `SqlLike` (`sql_like.dfy`): SQLite's `LIKE` operator without ESCAPE, and how
  the search pattern `'%' || q || '%'` relates to a case-insensitive substring test.
- `Preferences` (`preferences.dfy`): `SortOrder`, `FilterPreferences`, and the
  decoding of the preferences store. The class `PreferencesManager` holds the store.
- `TaskDb` (`task_dao.dfy`): the table as a map from primary key to row, and the
  two SELECTs. A query is specified relationally by `IsQueryResult`: which rows,
  each once, and the ORDER BY order. Ties may come back in any order.
  `SelectTasks` computes one such list with a loop. The class `TaskDao` holds the
  rows and the auto-increment counter, and implements insert, update, delete and
  delete-completed.
- `TaskList` (`tasks_view_model.dfy`): `TasksViewModel`. The search text, the
  queue of one-shot events, and the handlers that call the DAO and the
  preferences manager.
- `AddEdit` (`add_edit_view_model.dfy`): `AddEditTasksViewModel`. The saved-state
  bag, the working name and importance mirrored into it, the save rules
  (Kotlin's `isBlank`), and its event queue.
- `TaskSeed` (`seed_scenarios.dfy`): the six tasks the database is seeded with,
  and concrete query scenarios on them.

Where the two disagree, the model follows the code. The insert is declared
with `OnConflictStrategy.REPLACE` (TaskDao.kt:28), so every insert replaces an
existing row with the same id and none fails on a conflict. The replace
policy is not special to undo.

## Model

| member | source | states |
|---|---|---|
| SqlLike.Like | app/src/main/java/com/example/tasklist/db/TaskDao.kt:17 | definition of SQLite's built-in `s LIKE p` without ESCAPE: `%` matches any run of characters, `_` any one character, other characters match after folding ASCII upper case only |
| SqlLike.SearchPattern | app/src/main/java/com/example/tasklist/db/TaskDao.kt:21 | definition of the pattern `'%' \|\| :searchQuery \|\| '%'` both queries build from the search text |
| SqlLike.PercentMatchesAll | app/src/main/java/com/example/tasklist/db/TaskDao.kt:17 | a lone `%` in a LIKE pattern matches every name |
| SqlLike.LikeTrailingPercent | app/src/main/java/com/example/tasklist/db/TaskDao.kt:17 | for search text without wildcards, `q%` matches exactly the names that start with `q`, ignoring ASCII case (both directions) |
| SqlLike.LikeLeadingPercent | app/src/main/java/com/example/tasklist/db/TaskDao.kt:17 | `%p` matches a name exactly when `p` matches one of its suffixes (both directions) |
| SqlLike.SearchPatternMeansContains | app/src/main/java/com/example/tasklist/db/TaskDao.kt:17 | for search text without wildcards, `name LIKE '%' || q || '%'` holds exactly when the name contains `q`, ignoring ASCII case |
| SqlLike.PrefixIsFound | app/src/main/java/com/example/tasklist/db/TaskDao.kt:21 | a name that starts with the search text, ignoring ASCII case, is matched by the query pattern |
| SqlLike.EmptySearchMatchesAll | app/src/main/java/com/example/tasklist/db/TaskDao.kt:17 | empty search text matches every name |
| SqlLike.UnderscoreIsAWildcard | app/src/main/java/com/example/tasklist/db/TaskDao.kt:17 | search text is not escaped: searching for `_` matches the name "a", which contains no underscore |
| TaskDb.PassesCompletionFilter | app/src/main/java/com/example/tasklist/db/TaskDao.kt:17 | definition of the conjunct `(isCompleted != :hideCompleted or isCompleted = 0)` |
| TaskDb.Admits | app/src/main/java/com/example/tasklist/db/TaskDao.kt:21 | definition of the whole WHERE clause: the completion conjunct and the name LIKE the search pattern |
| TaskDb.CompletionFilterMeaning | app/src/main/java/com/example/tasklist/db/TaskDao.kt:17 | `(isCompleted != :hideCompleted or isCompleted = 0)` keeps a task exactly when hiding is off or the task is open |
| TaskDb.NameLe | app/src/main/java/com/example/tasklist/db/TaskDao.kt:17 | definition of `ORDER BY name` under SQLite's default BINARY collation: code point by code point, a proper prefix first, case-sensitive |
| TaskDb.InOrder | app/src/main/java/com/example/tasklist/db/TaskDao.kt:21 | definition of `ORDER BY important DESC, name` and `ORDER BY important DESC, created`: an important task first, then the second key |
| TaskDb.IsQueryResult | app/src/main/java/com/example/tasklist/db/TaskDao.kt:17-22 | definition of what a SELECT may return: every stored row the WHERE clause admits, exactly once, nothing else, in ORDER BY order (ties in any order) |
| TaskDb.NameLeReflexive | app/src/main/java/com/example/tasklist/db/TaskDao.kt:17 | `ORDER BY name` (BINARY collation) puts every name at or before itself |
| TaskDb.NameLeTotal | app/src/main/java/com/example/tasklist/db/TaskDao.kt:17 | any two names are comparable under BINARY collation |
| TaskDb.NameLeTransitive | app/src/main/java/com/example/tasklist/db/TaskDao.kt:17 | BINARY collation order is transitive |
| TaskDb.NameLeAntisymmetric | app/src/main/java/com/example/tasklist/db/TaskDao.kt:17 | two names each at or before the other are equal |
| TaskDb.InOrderTotal | app/src/main/java/com/example/tasklist/db/TaskDao.kt:17 | `ORDER BY important DESC, name` and `ORDER BY important DESC, created` compare any two tasks |
| TaskDb.InOrderTransitive | app/src/main/java/com/example/tasklist/db/TaskDao.kt:21 | both ORDER BY orders are transitive |
| TaskDb.InsertSorted | app/src/main/java/com/example/tasklist/db/TaskDao.kt:17 | placing a row into an ordered list keeps it ordered and adds exactly that row |
| TaskDb.SelectTasks | app/src/main/java/com/example/tasklist/db/TaskDao.kt:17-22 | one evaluation of either SELECT returns every row the WHERE clause keeps exactly once, nothing else, in ORDER BY order |
| TaskDb.GetTasksSortedByName | app/src/main/java/com/example/tasklist/db/TaskDao.kt:16-18 | the by-name query returns a result of the name-ordered SELECT for the search text and hide flag |
| TaskDb.GetTasksSortedByDate | app/src/main/java/com/example/tasklist/db/TaskDao.kt:20-22 | the by-date query returns a result of the date-ordered SELECT for the search text and hide flag |
| TaskDb.GetTasks | app/src/main/java/com/example/tasklist/db/TaskDao.kt:10-14 | `getTasks(query, sortOrder, hideCompleted)` returns a result of the SELECT for the requested sort order |
| TaskDb.QueryResultMembers | app/src/main/java/com/example/tasklist/db/TaskDao.kt:17-22 | a list is in a query result exactly when the row is stored under its id and admitted by the WHERE clause; no row appears twice |
| TaskDb.QueryHidesCompleted | app/src/main/java/com/example/tasklist/db/TaskDao.kt:17-22 | with hiding on no completed task is listed; with it off every stored row whose name matches is listed |
| TaskDb.QueryMatchesSearch | app/src/main/java/com/example/tasklist/db/TaskDao.kt:17-22 | for search text without wildcards, exactly the stored rows that pass the completion filter and contain the text, ignoring ASCII case, are listed |
| TaskDb.EmptySearchKeepsPassingRows | app/src/main/java/com/example/tasklist/db/TaskDao.kt:17-22 | with empty search text a stored row is listed exactly when the completion filter keeps it, and only stored rows are listed |
| TaskDb.QueryOrdering | app/src/main/java/com/example/tasklist/db/TaskDao.kt:17-22 | important tasks come before the others; within a tier names (by name) or creation times (by date) never decrease |
| TaskDb.QueryResultsAgree | app/src/main/java/com/example/tasklist/db/TaskDao.kt:17-22 | two results of the same query hold the same rows, and are the same list when no two selected rows tie on the ORDER BY keys |
| TaskDb.WithoutCompleted | app/src/main/java/com/example/tasklist/db/TaskDao.kt:37-39 | `DELETE ... WHERE isCompleted=1` keeps exactly the open rows, unchanged |
| TaskDb.DeleteCompletedIdempotent | app/src/main/java/com/example/tasklist/db/TaskDao.kt:37-39 | deleting the completed tasks twice leaves what deleting them once left |
| TaskDb.DeleteCompletedMatchesHiding | app/src/main/java/com/example/tasklist/db/TaskDao.kt:37-39 | after the bulk delete, a query with hiding off has exactly the results the same query with hiding on had before |
| TaskDb.DeleteThenInsertRestores | app/src/main/java/com/example/tasklist/db/TaskDao.kt:28-35 | deleting a stored row and inserting the same snapshot again restores the table |
| TaskDb.TaskDao.Insert | app/src/main/java/com/example/tasklist/db/TaskDao.kt:28-29 | replace-on-conflict insert: a task with an id replaces or adds the row under that id; a task without one gets a fresh key never used before |
| TaskDb.TaskDao.Update | app/src/main/java/com/example/tasklist/db/TaskDao.kt:31-32 | the row with the task's id is replaced; when there is none the table is unchanged |
| TaskDb.TaskDao.Delete | app/src/main/java/com/example/tasklist/db/TaskDao.kt:34-35 | the row with the task's id is removed, whatever the snapshot's other fields |
| TaskDb.TaskDao.DeleteCompletedTasks | app/src/main/java/com/example/tasklist/db/TaskDao.kt:37-39 | the table becomes the open rows of the old table; the key counter is kept |
| Preferences.Name | app/src/main/java/com/example/tasklist/data/PreferencesManager.kt:52-57 | the name `updateSortOrder` stores is read back by `valueOf` as the same order |
| Preferences.ValueOf | app/src/main/java/com/example/tasklist/data/PreferencesManager.kt:43-45 | `SortOrder.valueOf` accepts exactly the two constant names, case-sensitively |
| Preferences.StoredHideCompleted | app/src/main/java/com/example/tasklist/data/PreferencesManager.kt:47 | definition of `preferences[HIDE_COMPLETED] ?: false` |
| Preferences.MapPreferences | app/src/main/java/com/example/tasklist/data/PreferencesManager.kt:42-49 | a missing sort order reads as SORT_BY_DATE and a missing flag as false; an unknown stored name fails the read; otherwise the stored values are returned |
| Preferences.PreferencesFlow | app/src/main/java/com/example/tasklist/data/PreferencesManager.kt:33-49 | an IOException reading the store yields the defaults; any other exception is rethrown; a store without a sort order always decodes |
| Preferences.PreferencesManager.Read | app/src/main/java/com/example/tasklist/data/PreferencesManager.kt:33-49 | definition of the value `preferencesFlow` emits for the current store, given the exception the file read raises, if any |
| Preferences.ReadAfterUpdateSortOrder | app/src/main/java/com/example/tasklist/data/PreferencesManager.kt:52-57 | after writing a sort order, reading gives that order and the old hide flag, whatever was stored before |
| Preferences.ReadAfterUpdateHideCompleted | app/src/main/java/com/example/tasklist/data/PreferencesManager.kt:60-64 | after writing the hide flag, reading gives that flag and the old sort order (or the old failure) |
| Preferences.LowerCaseSortOrderIsRejected | app/src/main/java/com/example/tasklist/data/PreferencesManager.kt:43-45 | a stored lower-case name is not a sort order: the read fails |
| Preferences.PreferencesManager.UpdateSortOrder | app/src/main/java/com/example/tasklist/data/PreferencesManager.kt:52-57 | only the `sort_order` key changes, and the next read yields the new order with the old flag |
| Preferences.PreferencesManager.UpdateHideCompleted | app/src/main/java/com/example/tasklist/data/PreferencesManager.kt:60-64 | only the `hide_completed` key changes, and the next read yields the new flag with the old order |
| TaskList.TasksViewModel.constructor | app/src/main/java/com/example/tasklist/viewmodel/TasksViewModel.kt:21 | the search text starts as the saved `search_query`, or empty; no events are pending |
| TaskList.TasksViewModel.SetSearchQuery | app/src/main/java/com/example/tasklist/ui/TasksFragment.kt:139 | the search text becomes the typed text; pending events are kept |
| TaskList.TasksViewModel.Tasks | app/src/main/java/com/example/tasklist/viewmodel/TasksViewModel.kt:29-38 | the shown list is a result of the DAO query for the current search text and stored preferences; a failed preferences read yields that failure instead |
| TaskList.TasksViewModel.OnSortOrderSelected | app/src/main/java/com/example/tasklist/viewmodel/TasksViewModel.kt:41-43 | stores the chosen order so the next read yields it; the table, search text and events are untouched |
| TaskList.TasksViewModel.OnHideCompletedClicked | app/src/main/java/com/example/tasklist/viewmodel/TasksViewModel.kt:46-48 | stores the hide flag so the next read yields it; the table, search text and events are untouched |
| TaskList.TasksViewModel.OnAddNewTaskClicked | app/src/main/java/com/example/tasklist/viewmodel/TasksViewModel.kt:50-51 | exactly one NavigateToAddTaskScreen event is queued; nothing else changes |
| TaskList.TasksViewModel.OnEditTaskClick | app/src/main/java/com/example/tasklist/viewmodel/TasksViewModel.kt:53-55 | exactly one NavigateToEditTaskScreen event carrying the task is queued; nothing else changes |
| TaskList.TasksViewModel.OnUndoDeleteClick | app/src/main/java/com/example/tasklist/viewmodel/TasksViewModel.kt:57-60 | the snapshot is inserted with replace-on-conflict, under its own id |
| TaskList.TasksViewModel.OnTaskCheckboxClick | app/src/main/java/com/example/tasklist/viewmodel/TasksViewModel.kt:62-65 | the stored row with the task's id is replaced by the task with only `isCompleted` set to the new value |
| TaskList.TasksViewModel.OnTaskSwiped | app/src/main/java/com/example/tasklist/viewmodel/TasksViewModel.kt:67-70 | the row is deleted and then one ShowUndoDeleteTaskMessage event carrying the same snapshot is queued |
| TaskList.TasksViewModel.OnDeleteAllCompletedClick | app/src/main/java/com/example/tasklist/viewmodel/TasksViewModel.kt:72-76 | only a NavigateToDeleteAllTasksScreen event is queued; no row is deleted |
| TaskList.TasksViewModel.NextEvent | app/src/main/java/com/example/tasklist/viewmodel/TasksViewModel.kt:25-26 | the channel hands out the oldest pending event first, or none |
| TaskList.SwipeThenUndo | app/src/main/java/com/example/tasklist/viewmodel/TasksViewModel.kt:57-70 | swiping a stored row and then undoing restores the table and its key counter; the undo message was queued |
| TaskList.EventsAreFifo | app/src/main/java/com/example/tasklist/viewmodel/TasksViewModel.kt:25-26 | scenario: after an add-task click and a swipe on an empty queue, the two events are received in send order and then none are left; the general rule is `NextEvent`'s contract together with each sender's `events == old(events) + [e]` |
| AddEdit.SavedTask | app/src/main/java/com/example/tasklist/viewmodel/AddEditTasksViewModel.kt:20 | definition of `state.get<Task>("task")`: the task being edited, none when adding |
| AddEdit.InitialTaskName | app/src/main/java/com/example/tasklist/viewmodel/AddEditTasksViewModel.kt:22 | the working name is the saved `task_name`, else the edited task's name, else empty |
| AddEdit.InitialTaskImportance | app/src/main/java/com/example/tasklist/viewmodel/AddEditTasksViewModel.kt:28 | the working importance is the saved `task_importance`, else the edited task's flag, else false |
| AddEdit.Edited | app/src/main/java/com/example/tasklist/viewmodel/AddEditTasksViewModel.kt:45 | the edited copy has the screen's name and importance and keeps id, completion and creation time |
| AddEdit.IsWhitespace | app/src/main/java/com/example/tasklist/viewmodel/AddEditTasksViewModel.kt:38 | definition of Kotlin's `Char.isWhitespace`: Java's `Character.isWhitespace` or `isSpaceChar`, as a set of code points |
| AddEdit.IsBlank | app/src/main/java/com/example/tasklist/viewmodel/AddEditTasksViewModel.kt:38 | definition of Kotlin's `isBlank`: empty, or whitespace only |
| TaskModel.NewTask | app/src/main/java/com/example/tasklist/viewmodel/AddEditTasksViewModel.kt:49 | definition of `Task(name = ..., important = ...)`: no id yet, not completed, created at the given clock reading |
| AddEdit.AddEditTasksViewModel.constructor | app/src/main/java/com/example/tasklist/viewmodel/AddEditTasksViewModel.kt:20-32 | the edited task, name and importance are read from the saved state with their fallbacks |
| AddEdit.AddEditTasksViewModel.SetTaskName | app/src/main/java/com/example/tasklist/viewmodel/AddEditTasksViewModel.kt:22-26 | the name is set and mirrored under `task_name`, so a rebuilt view model gets it back |
| AddEdit.AddEditTasksViewModel.SetTaskImportance | app/src/main/java/com/example/tasklist/viewmodel/AddEditTasksViewModel.kt:28-32 | the importance is set and mirrored under `task_importance`, so a rebuilt view model gets it back |
| AddEdit.AddEditTasksViewModel.OnSaveClick | app/src/main/java/com/example/tasklist/viewmodel/AddEditTasksViewModel.kt:37-53 | a blank name queues the "Task name cannot be empty!" message and leaves the table alone; otherwise the edited task is updated, or a new open task is inserted under a fresh key, and one matching result event is queued |
| AddEdit.AddEditTasksViewModel.CreateTask | app/src/main/java/com/example/tasklist/viewmodel/AddEditTasksViewModel.kt:55-62 | the task is inserted under a fresh key, then NavigateBackWithResult(ADD_TASK_RESULT_OK) is queued |
| AddEdit.AddEditTasksViewModel.UpdateTask | app/src/main/java/com/example/tasklist/viewmodel/AddEditTasksViewModel.kt:64-67 | the row with the task's id is replaced, then NavigateBackWithResult(EDIT_TASK_RESULT_OK) is queued |
| AddEdit.AddEditTasksViewModel.ShowInvalidInputMessage | app/src/main/java/com/example/tasklist/viewmodel/AddEditTasksViewModel.kt:69-71 | exactly the message event is queued; the table is untouched |
| AddEdit.AddEditTasksViewModel.NextEvent | app/src/main/java/com/example/tasklist/viewmodel/AddEditTasksViewModel.kt:34-35 | the channel hands out the oldest pending event first, or none |
| AddEdit.RestoredAfterSetters | app/src/main/java/com/example/tasklist/viewmodel/AddEditTasksViewModel.kt:22-32 | a view model rebuilt from the saved state after both setters ran has the set name and importance and the same edited task |
| AddEdit.BlankExamples | app/src/main/java/com/example/tasklist/viewmodel/AddEditTasksViewModel.kt:38 | scenario: `isBlank` holds for "", " \t\n" and "\u3000", and fails for " a " |
| TaskSeed.SeedDatabase | app/src/main/java/com/example/tasklist/db/TaskDatabase.kt:32-38 | six inserts without ids into an empty table store the six seed tasks under keys 1 to 6 |
| TaskSeed.HideCompletedOnSeed | app/src/main/java/com/example/tasklist/db/TaskDatabase.kt:32-38 | on the seed table, hiding completed tasks with empty search text drops exactly "Practice Android" |
| TaskSeed.SeedNoTiesByDate | app/src/main/java/com/example/tasklist/db/TaskDatabase.kt:32-38 | no two seed rows tie on the by-date keys, so any by-date query on them has one result |
| TaskSeed.SeedByDate | app/src/main/java/com/example/tasklist/db/TaskDatabase.kt:32-38 | the by-date list of the seed table is the important tasks first, each tier in creation order |
| TaskSeed.SearchExample | app/src/main/java/com/example/tasklist/db/TaskDao.kt:17 | searching "get" by name over "Get fruits" (important) and "Get eggs" lists both, the important one first |
| TaskSeed.CheckThenHide | app/src/main/java/com/example/tasklist/viewmodel/TasksViewModel.kt:62-65 | scenario through the list screen: over "Get fruits" and "Get eggs" with an empty preferences store, ticking "Get eggs" and switching on hide-completed gives a list that holds "Get fruits" and not "Get eggs" |
| TaskSeed.DeleteCompletedExample | app/src/main/java/com/example/tasklist/db/TaskDao.kt:37-39 | the bulk delete drops the completed "Practice Android" and keeps "Get fruits"; a second run changes nothing |

## Left out

- Flows, coroutines and LiveData are left out: each handler runs as one sequential step. `combine`/`flatMapLatest` re-running the query on every change is modelled as `Tasks`, which computes the current value once.
- Channel suspension is left out: `send` never blocks in the model, and the event channels are unbounded FIFO queues.
- The parameterless `getTasks()` (TaskDao.kt:25-26) is not used by the modelled view models and is not modelled.
- Task.kt is not part of this model. `Task` holds the fields the DAO and view models use. The defaults are inferred: id 0 means "let the database pick a key", a new task is not completed, and `created` is a clock reading.
- The clock is a parameter: `OnSaveClick(now)` takes the creation time, and the seed uses the placeholder times 1 to 6.
- TaskSeed.SeedNoTiesByDate and TaskSeed.SeedByDate rest on those distinct placeholder times. In the app each seed task's `created` is a millisecond clock reading taken when the task is built, so six back-to-back inserts can share a reading. Tied rows then come back in an unspecified by-date order, and `QueryResultsAgree` promises only the same rows.
- ResultCode.kt / MainActivity are not part of this model: `ADD_TASK_RESULT_OK` and `EDIT_TASK_RESULT_OK` are two distinct constants without their integer values.
- `ShowTaskSavedUpdatedConfirmationMessage` is declared but never sent by the modelled code, so no handler produces it.
- After an IOException, `preferencesFlow` emits the defaults and then completes. The model gives one read's value, not the end of the flow.
- Logging (`Log.e`) is left out.
- Preferences.PreferencesManager.UpdateSortOrder, Preferences.PreferencesManager.UpdateHideCompleted, TaskDb.TaskDao.Insert, TaskDb.TaskDao.Update, TaskDb.TaskDao.Delete and TaskDb.TaskDao.DeleteCompletedTasks: writes are assumed to succeed. A failed `dataStore.edit` or Room write throws out of the launched handler, which nothing catches, and leaves the store unchanged. So "the next read yields the written value" (here and in `OnSortOrderSelected`, `OnHideCompletedClicked`) holds only for a write that succeeds.
- `searchQuery` is written back to the saved state under "search_query" by `getLiveData`. The model keeps only the current value and its initialisation.
- Saved-state and DataStore values of the wrong type would make the Kotlin casts fail. Such values are excluded by the `WellTyped` preconditions rather than modelled.
- DeleteAllCompletedViewModel, the fragments, the adapter and the Hilt wiring are outside the modelled core. The confirmation dialog's effect is `TaskDao.DeleteCompletedTasks`.
- TaskDb.SelectTasks: a real SELECT may break ties in any order. The model computes one particular order and specifies all of them through `IsQueryResult`.
- SqlLike.Like: only ASCII letters are case-folded, as SQLite's built-in LIKE does. Unicode case folding (ICU builds) is not modelled.
- TaskDb.TaskDao.Insert: the counter is modelled as one above the largest key ever stored. SQLite's overflow behaviour at the 64-bit maximum is not modelled.
