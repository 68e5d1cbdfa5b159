/** The entity and request shapes of the task API (internal/models/models.go).
    Go pointer fields, which may be nil, are modelled as `Option`. */
module Models {

  /** A value that may be absent: the model of a Go pointer that may be nil. */
  datatype Option<T> = None | Some(value: T) {
    function GetOr(default: T): T {
      match this
      case Some(v) => v
      case None => default
    }
  }

  /** A point in time. `time.Now()` is a parameter of the model, so an
      abstract integer clock is enough. */
  type Time = int

  /** The stored task. */
  datatype Todo = Todo(
    id: string,
    taskName: string,
    description: Option<string>,
    completed: bool,
    createdAt: Time)

  /** A partial update: each present field overwrites the stored one. */
  datatype UpdateTodoRequest = UpdateTodoRequest(
    taskName: Option<string>,
    description: Option<string>,
    completed: Option<bool>)
  {
    /** True when at least one field is present. */
    predicate HasAnyField() {
      taskName.Some? || description.Some? || completed.Some?
    }
  }

  /** The body of a create request: a name and an optional description. */
  datatype CreateTodoRequest = CreateTodoRequest(
    taskName: string,
    description: Option<string>)
}
