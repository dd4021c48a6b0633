/**
 * The `Task` row of `task_table`. Its declaring file is not part of this model:
 * the fields are the ones the DAO, the view models and the seeding callback use,
 * and the defaults are the ones `Task(name = ...)` relies on (no id yet, not
 * completed, created now).
 */
module TaskModel {

  /** `created` is an opaque clock reading; `id` is the primary key. */
  datatype Task = Task(id: int, name: string, important: bool, isCompleted: bool, created: int)

  /** The id a task carries before the database has assigned one (Room's auto-generated key). */
  const UNSET_ID: int := 0

  /** `Task(name = name, important = important)`: a task that is not stored yet. */
  function NewTask(name: string, important: bool, now: int): Task
  {
    Task(UNSET_ID, name, important, false, now)
  }
}
