/**
 * TasksViewModel.kt: the task-list screen's controller. It holds the search
 * text and the queue of one-shot events for the screen, and forwards user
 * intents to the DAO and the preferences manager. Each handler runs as one
 * sequential step.
 */
module TaskList {
  import opened Wrappers
  import opened TaskModel
  import opened Preferences
  import opened TaskDb

  datatype TasksEvent =
    | NavigateToAddTaskScreen
    | ShowUndoDeleteTaskMessage(task: Task)
    | NavigateToEditTaskScreen(task: Task)
    | ShowTaskSavedUpdatedConfirmationMessage(msg: string)
    | NavigateToDeleteAllTasksScreen

  class TasksViewModel {
    const dao: TaskDao
    const preferencesManager: PreferencesManager
    /** `searchQuery`, kept in the saved state under "search_query". */
    var searchQuery: string
    /** `tasksEventChannel`: sent events not yet received, oldest first. */
    var events: seq<TasksEvent>

    ghost predicate Valid()
      reads this, dao, preferencesManager
    {
      dao.Valid() && preferencesManager.Valid()
    }

    /** The search text starts as the saved one, or empty. */
    constructor (dao: TaskDao, preferencesManager: PreferencesManager, savedSearchQuery: Option<string>)
      requires dao.Valid() && preferencesManager.Valid()
      ensures Valid() && this.dao == dao && this.preferencesManager == preferencesManager
      ensures searchQuery == savedSearchQuery.GetOr("") && events == []
    {
      this.dao := dao;
      this.preferencesManager := preferencesManager;
      searchQuery := savedSearchQuery.GetOr("");
      events := [];
    }

    /** The search view writes `searchQuery.value`. */
    method SetSearchQuery(q: string)
      modifies this
      ensures searchQuery == q && events == old(events)
    {
      searchQuery := q;
    }

    /**
     * The list `tasks` shows now: the DAO query for the current search text
     * and preferences. `fault` is the exception reading the preferences file
     * raises, if any; a rethrown one ends the flow without a list.
     */
    method Tasks(fault: Option<Exception>) returns (r: Result<seq<Task>, PreferencesError>)
      requires Valid()
      ensures preferencesManager.Read(fault).Failure? ==> r == Failure(preferencesManager.Read(fault).error)
      ensures preferencesManager.Read(fault).Success? ==>
        var p := preferencesManager.Read(fault).value;
        r.Success? && IsQueryResult(dao.rows, searchQuery, p.sortOrder, p.hideCompleted, r.value)
    {
      match preferencesManager.Read(fault)
      case Failure(e) =>
        r := Failure(e);
      case Success(p) =>
        var list := GetTasks(dao.rows, searchQuery, p.sortOrder, p.hideCompleted);
        r := Success(list);
    }

    /** `onSortOrderSelected`: stores the order; the table and the screen state are untouched. */
    method OnSortOrderSelected(s: SortOrder)
      requires Valid()
      modifies preferencesManager
      ensures Valid()
      ensures preferencesManager.data == old(preferencesManager.data)[SORT_ORDER_KEY := StringValue(Name(s))]
      ensures preferencesManager.Read(None) == Success(FilterPreferences(s, old(StoredHideCompleted(preferencesManager.data))))
      ensures unchanged(this) && unchanged(dao)
    {
      preferencesManager.UpdateSortOrder(s);
    }

    /** `onHideCompletedClicked`: stores the flag; the table and the screen state are untouched. */
    method OnHideCompletedClicked(hideCompleted: bool)
      requires Valid()
      modifies preferencesManager
      ensures Valid()
      ensures preferencesManager.data == old(preferencesManager.data)[HIDE_COMPLETED_KEY := BoolValue(hideCompleted)]
      ensures preferencesManager.Read(None) == match old(preferencesManager.Read(None))
                                               case Success(p) => Success(p.(hideCompleted := hideCompleted))
                                               case Failure(e) => Failure(e)
      ensures unchanged(this) && unchanged(dao)
    {
      preferencesManager.UpdateHideCompleted(hideCompleted);
    }

    /** `onAddNewTaskClicked`: one navigation event, nothing else. */
    method OnAddNewTaskClicked()
      modifies this
      ensures events == old(events) + [NavigateToAddTaskScreen] && searchQuery == old(searchQuery)
      ensures unchanged(dao) && unchanged(preferencesManager)
    {
      events := events + [NavigateToAddTaskScreen];
    }

    /** `onEditTaskClick`: one navigation event carrying the task, nothing else. */
    method OnEditTaskClick(task: Task)
      modifies this
      ensures events == old(events) + [NavigateToEditTaskScreen(task)] && searchQuery == old(searchQuery)
      ensures unchanged(dao) && unchanged(preferencesManager)
    {
      events := events + [NavigateToEditTaskScreen(task)];
    }

    /** `onUndoDeleteClick`: inserts the snapshot again, replacing on conflict. */
    method OnUndoDeleteClick(task: Task)
      requires Valid()
      modifies dao
      ensures Valid()
      ensures task.id != UNSET_ID ==> dao.rows == old(dao.rows)[task.id := task]
      ensures task.id != UNSET_ID ==> dao.nextId == if task.id < old(dao.nextId) then old(dao.nextId) else task.id + 1
      ensures task.id == UNSET_ID ==> dao.rows == old(dao.rows)[old(dao.nextId) := task.(id := old(dao.nextId))]
      ensures unchanged(this) && unchanged(preferencesManager)
    {
      dao.Insert(task);
    }

    /** `onTaskCheckboxClick`: updates the row with only `isCompleted` changed. */
    method OnTaskCheckboxClick(task: Task, checked: bool)
      requires Valid()
      modifies dao
      ensures Valid() && dao.nextId == old(dao.nextId)
      ensures task.id in old(dao.rows) ==> dao.rows == old(dao.rows)[task.id := task.(isCompleted := checked)]
      ensures task.id !in old(dao.rows) ==> dao.rows == old(dao.rows)
      ensures unchanged(this) && unchanged(preferencesManager)
    {
      dao.Update(task.(isCompleted := checked));
    }

    /** `onTaskSwiped`: deletes the row, then offers undo with the same snapshot. */
    method OnTaskSwiped(task: Task)
      requires Valid()
      modifies this, dao
      ensures Valid() && dao.nextId == old(dao.nextId)
      ensures dao.rows == old(dao.rows) - {task.id}
      ensures events == old(events) + [ShowUndoDeleteTaskMessage(task)] && searchQuery == old(searchQuery)
      ensures unchanged(preferencesManager)
    {
      dao.Delete(task);
      events := events + [ShowUndoDeleteTaskMessage(task)];
    }

    /** `onDeleteAllCompletedClick`: asks for confirmation; nothing is deleted here. */
    method OnDeleteAllCompletedClick()
      modifies this
      ensures events == old(events) + [NavigateToDeleteAllTasksScreen] && searchQuery == old(searchQuery)
      ensures unchanged(dao) && unchanged(preferencesManager)
    {
      events := events + [NavigateToDeleteAllTasksScreen];
    }

    /** The screen receives the oldest pending event; `None` when nothing was sent. */
    method NextEvent() returns (e: Option<TasksEvent>)
      modifies this
      ensures old(events) == [] ==> e == None && events == []
      ensures old(events) != [] ==> e == Some(old(events)[0]) && events == old(events)[1..]
      ensures searchQuery == old(searchQuery)
    {
      if events == [] {
        e := None;
      } else {
        e := Some(events[0]);
        events := events[1..];
      }
    }
  }

  /** Undo right after a swipe of the current snapshot of a row puts the table back as it was. */
  method SwipeThenUndo(vm: TasksViewModel, task: Task)
    requires vm.Valid()
    requires task.id in vm.dao.rows && vm.dao.rows[task.id] == task
    modifies vm, vm.dao
    ensures vm.Valid()
    ensures vm.dao.rows == old(vm.dao.rows) && vm.dao.nextId == old(vm.dao.nextId)
    ensures vm.events == old(vm.events) + [ShowUndoDeleteTaskMessage(task)]
  {
    vm.OnTaskSwiped(task);
    vm.OnUndoDeleteClick(task);
    DeleteThenInsertRestores(old(vm.dao.rows), task);
  }

  /** Events come out in the order they were sent, and the queue then reports none. */
  method EventsAreFifo(vm: TasksViewModel, task: Task)
    returns (first: Option<TasksEvent>, second: Option<TasksEvent>, third: Option<TasksEvent>)
    requires vm.Valid() && vm.events == []
    modifies vm, vm.dao
    ensures first == Some(NavigateToAddTaskScreen)
    ensures second == Some(ShowUndoDeleteTaskMessage(task))
    ensures third == None
  {
    vm.OnAddNewTaskClicked();
    vm.OnTaskSwiped(task);
    first := vm.NextEvent();
    second := vm.NextEvent();
    third := vm.NextEvent();
  }
}
