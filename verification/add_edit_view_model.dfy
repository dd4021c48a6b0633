/**
 * AddEditTasksViewModel.kt: the add/edit screen's controller. The working name
 * and importance survive the screen being recreated because every assignment
 * is mirrored into the saved-state bag, from which they are initialised.
 */
module AddEdit {
  import opened Wrappers
  import opened TaskModel
  import opened TaskDb

  /** A value in the saved-state bag. */
  datatype StateValue = TaskValue(task: Task) | StringValue(s: string) | BoolValue(b: bool)

  type SavedState = map<string, StateValue>

  const TASK_KEY := "task"
  const TASK_NAME_KEY := "task_name"
  const TASK_IMPORTANCE_KEY := "task_importance"

  /** Each key holds the type the view model reads it as. */
  predicate WellTyped(state: SavedState) {
    && (TASK_KEY in state ==> state[TASK_KEY].TaskValue?)
    && (TASK_NAME_KEY in state ==> state[TASK_NAME_KEY].StringValue?)
    && (TASK_IMPORTANCE_KEY in state ==> state[TASK_IMPORTANCE_KEY].BoolValue?)
  }

  /** `state.get<Task>("task")`: the task being edited; none when adding. */
  function SavedTask(state: SavedState): Option<Task>
    requires WellTyped(state)
  {
    if TASK_KEY in state then Some(state[TASK_KEY].task) else None
  }

  /** `state.get<String>("task_name") ?: task?.name ?: ""` */
  function InitialTaskName(state: SavedState): (name: string)
    requires WellTyped(state)
    ensures TASK_NAME_KEY in state ==> name == state[TASK_NAME_KEY].s
    ensures TASK_NAME_KEY !in state && TASK_KEY in state ==> name == state[TASK_KEY].task.name
    ensures TASK_NAME_KEY !in state && TASK_KEY !in state ==> name == ""
  {
    if TASK_NAME_KEY in state then state[TASK_NAME_KEY].s
    else match SavedTask(state)
      case Some(t) => t.name
      case None => ""
  }

  /** `state.get<Boolean>("task_importance") ?: task?.important ?: false` */
  function InitialTaskImportance(state: SavedState): (important: bool)
    requires WellTyped(state)
    ensures TASK_IMPORTANCE_KEY in state ==> important == state[TASK_IMPORTANCE_KEY].b
    ensures TASK_IMPORTANCE_KEY !in state && TASK_KEY in state ==> important == state[TASK_KEY].task.important
    ensures TASK_IMPORTANCE_KEY !in state && TASK_KEY !in state ==> !important
  {
    if TASK_IMPORTANCE_KEY in state then state[TASK_IMPORTANCE_KEY].b
    else match SavedTask(state)
      case Some(t) => t.important
      case None => false
  }

  /**
   * Kotlin's `Char.isWhitespace`: Java's whitespace (tab to carriage return,
   * the four separators U+001C..U+001F) or a Unicode space, line or paragraph
   * separator (including the no-break spaces).
   */
  predicate IsWhitespace(c: char) {
    var n := c as int;
    || 0x09 <= n <= 0x0D
    || 0x1C <= n <= 0x20
    || n == 0xA0 || n == 0x1680
    || 0x2000 <= n <= 0x200A
    || n == 0x2028 || n == 0x2029 || n == 0x202F || n == 0x205F || n == 0x3000
  }

  /** `isBlank`: empty or whitespace only. */
  predicate IsBlank(s: string) {
    forall i :: 0 <= i < |s| ==> IsWhitespace(s[i])
  }

  /** The edited task: the name and importance from the screen, everything else kept. */
  function Edited(task: Task, name: string, important: bool): (t: Task)
    ensures t.id == task.id && t.isCompleted == task.isCompleted && t.created == task.created
    ensures t.name == name && t.important == important
  {
    task.(name := name, important := important)
  }

  /** The two result codes the screen hands back to the list; their values are not part of this model. */
  datatype ResultCode = ADD_TASK_RESULT_OK | EDIT_TASK_RESULT_OK

  datatype AddEditTaskEvent =
    | ShowInvalidInputMessage(msg: string)
    | NavigateBackWithResult(result: ResultCode)

  const EMPTY_NAME_MESSAGE := "Task name cannot be empty!"

  class AddEditTasksViewModel {
    const dao: TaskDao
    /** The `SavedStateHandle`. */
    var state: SavedState
    /** `task`: the task being edited, read once from the saved state. */
    const task: Option<Task>
    var taskName: string
    var taskImportance: bool
    /** `addEditTaskEventChannel`: sent events not yet received, oldest first. */
    var events: seq<AddEditTaskEvent>

    /** Re-initialising from the saved state gives back the working values. */
    ghost predicate Valid()
      reads this, dao
    {
      && dao.Valid()
      && WellTyped(state)
      && task == SavedTask(state)
      && taskName == InitialTaskName(state)
      && taskImportance == InitialTaskImportance(state)
    }

    constructor (dao: TaskDao, state: SavedState)
      requires dao.Valid() && WellTyped(state)
      ensures Valid() && this.dao == dao && this.state == state && events == []
      ensures task == SavedTask(state)
      ensures taskName == InitialTaskName(state) && taskImportance == InitialTaskImportance(state)
    {
      this.dao := dao;
      this.state := state;
      task := SavedTask(state);
      taskName := InitialTaskName(state);
      taskImportance := InitialTaskImportance(state);
      events := [];
    }

    /** The `taskName` setter: the value is mirrored under "task_name". */
    method SetTaskName(value: string)
      requires Valid()
      modifies this
      ensures Valid()
      ensures taskName == value && state == old(state)[TASK_NAME_KEY := StringValue(value)]
      ensures taskImportance == old(taskImportance) && events == old(events)
    {
      taskName := value;
      state := state[TASK_NAME_KEY := StringValue(value)];
    }

    /** The `taskImportance` setter: the value is mirrored under "task_importance". */
    method SetTaskImportance(value: bool)
      requires Valid()
      modifies this
      ensures Valid()
      ensures taskImportance == value && state == old(state)[TASK_IMPORTANCE_KEY := BoolValue(value)]
      ensures taskName == old(taskName) && events == old(events)
    {
      taskImportance := value;
      state := state[TASK_IMPORTANCE_KEY := BoolValue(value)];
    }

    /**
     * `onSaveClick`: a blank name is refused with a message; otherwise the edited
     * task is updated, or a new task is inserted (created at `now`), and the
     * screen is sent back. Exactly one event is sent, after the table change.
     */
    method OnSaveClick(now: int)
      requires Valid()
      modifies this, dao
      ensures Valid()
      ensures taskName == old(taskName) && taskImportance == old(taskImportance) && state == old(state)
      ensures IsBlank(taskName) ==>
        && events == old(events) + [AddEditTaskEvent.ShowInvalidInputMessage(EMPTY_NAME_MESSAGE)]
        && dao.rows == old(dao.rows) && dao.nextId == old(dao.nextId)
      ensures !IsBlank(taskName) && task.Some? ==>
        var edited := Edited(task.value, taskName, taskImportance);
        && events == old(events) + [NavigateBackWithResult(EDIT_TASK_RESULT_OK)]
        && dao.rows == (if edited.id in old(dao.rows) then old(dao.rows)[edited.id := edited] else old(dao.rows))
        && dao.nextId == old(dao.nextId)
      ensures !IsBlank(taskName) && task.None? ==>
        var id := old(dao.nextId);
        && events == old(events) + [NavigateBackWithResult(ADD_TASK_RESULT_OK)]
        && id !in old(dao.rows)
        && dao.rows == old(dao.rows)[id := Task(id, taskName, taskImportance, false, now)]
    {
      if IsBlank(taskName) {
        ShowInvalidInputMessage(EMPTY_NAME_MESSAGE);
        return;
      }
      match task
      case Some(t) =>
        UpdateTask(Edited(t, taskName, taskImportance));
      case None =>
        CreateTask(NewTask(taskName, taskImportance, now));
    }

    /** `createTask`: insert, then navigate back with the "added" result. */
    method CreateTask(t: Task)
      requires Valid() && t.id == UNSET_ID
      modifies this, dao
      ensures Valid()
      ensures taskName == old(taskName) && taskImportance == old(taskImportance) && state == old(state)
      ensures old(dao.nextId) !in old(dao.rows)
      ensures dao.rows == old(dao.rows)[old(dao.nextId) := t.(id := old(dao.nextId))]
      ensures events == old(events) + [NavigateBackWithResult(ADD_TASK_RESULT_OK)]
    {
      dao.Insert(t);
      events := events + [NavigateBackWithResult(ADD_TASK_RESULT_OK)];
    }

    /** `updateTask`: update, then navigate back with the "edited" result. */
    method UpdateTask(t: Task)
      requires Valid()
      modifies this, dao
      ensures Valid()
      ensures taskName == old(taskName) && taskImportance == old(taskImportance) && state == old(state)
      ensures dao.rows == (if t.id in old(dao.rows) then old(dao.rows)[t.id := t] else old(dao.rows))
      ensures dao.nextId == old(dao.nextId)
      ensures events == old(events) + [NavigateBackWithResult(EDIT_TASK_RESULT_OK)]
    {
      dao.Update(t);
      events := events + [NavigateBackWithResult(EDIT_TASK_RESULT_OK)];
    }

    /** `showInvalidInputMessage` */
    method ShowInvalidInputMessage(msg: string)
      modifies this
      ensures taskName == old(taskName) && taskImportance == old(taskImportance) && state == old(state)
      ensures events == old(events) + [AddEditTaskEvent.ShowInvalidInputMessage(msg)]
      ensures unchanged(dao)
    {
      events := events + [AddEditTaskEvent.ShowInvalidInputMessage(msg)];
    }

    /** The screen receives the oldest pending event; `None` when nothing was sent. */
    method NextEvent() returns (e: Option<AddEditTaskEvent>)
      modifies this
      ensures old(events) == [] ==> e == None && events == []
      ensures old(events) != [] ==> e == Some(old(events)[0]) && events == old(events)[1..]
      ensures taskName == old(taskName) && taskImportance == old(taskImportance) && state == old(state)
    {
      if events == [] {
        e := None;
      } else {
        e := Some(events[0]);
        events := events[1..];
      }
    }
  }

  /** A view model rebuilt from the saved state after the setters ran has the same working values. */
  lemma RestoredAfterSetters(state: SavedState, name: string, important: bool)
    requires WellTyped(state)
    ensures var s := state[TASK_NAME_KEY := StringValue(name)][TASK_IMPORTANCE_KEY := BoolValue(important)];
      WellTyped(s) && InitialTaskName(s) == name && InitialTaskImportance(s) == important && SavedTask(s) == SavedTask(state)
  {
  }

  /** Whitespace-only names are blank; a name with a letter is not. */
  lemma BlankExamples()
    ensures IsBlank("") && IsBlank(" \t\n") && IsBlank("\U{3000}")
    ensures !IsBlank(" a ")
  {
    assert !IsWhitespace(" a "[1]);
  }
}
