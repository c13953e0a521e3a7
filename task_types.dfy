/**
 * The data model of the task app: the domain task, its local (Room row) and
 * remote (JSON) shapes, its status, and the small types that drive sorting
 * and the use-case result.
 */
module TaskTypes {

  /** Kotlin's nullable `T?`. */
  datatype Option<+T> = None | Some(value: T)

  /** A calendar date (`java.time.LocalDate`) as a day number; only `<=` is used. */
  type Date = int

  /** The status of a task; `Value()` is the display string the enum carries. */
  datatype TaskStatus = Unresolved | Resolved | CantResolve {
    function Value(): string {
      match this
      case Unresolved => "Unresolved"
      case Resolved => "Resolved"
      case CantResolve => "Can't resolve"
    }
  }

  /** The domain entity; status and comment default as in the Kotlin data class. */
  datatype TaskDomain = TaskDomain(
    id: string,
    title: string,
    description: string,
    dueDate: Option<Date> := None,
    targetDate: Option<Date> := None,
    priority: int,
    status: TaskStatus := Unresolved,
    comment: string := "")

  /** A row of the `task` table, keyed by `id`; the same fields and defaults as the domain entity. */
  datatype TaskLocal = TaskLocal(
    id: string,
    title: string,
    description: string,
    dueDate: Option<Date> := None,
    targetDate: Option<Date> := None,
    priority: int,
    status: TaskStatus := Unresolved,
    comment: string := "")

  /** A task as the remote endpoint sends it: dates are unparsed strings, no status or comment. */
  datatype TaskRemote = TaskRemote(
    id: string,
    targetDate: Option<string> := None,
    dueDate: Option<string> := None,
    title: string,
    description: string,
    priority: int)

  datatype SortingDirection = Up | Down

  /** The only ordering the app offers: by priority, in a direction. */
  datatype TaskItemOrder = Priority(sortingDirection: SortingDirection)

  datatype TaskUseCaseResult = Success(tasks: seq<TaskDomain>) | Error(message: string)
}
