/** The error values of package repository, plus the two other kinds of
    error that reach the callers: a fresh `errors.New` value and an error
    passed through from the database driver. */
module Errors {

  /** What the database driver can report. */
  datatype DbError =
    | NoRows                          // sql.ErrNoRows
    | DriverFailure(message: string)  // any other driver or scan error

  datatype Error =
    | EmptyID
    | InvalidID
    | EmptyTask
    | EmptyData
    | AlreadyExist
    | EmptyName
      /** A fresh `errors.New(text)` value: never identical to a sentinel,
          even when its text is the same. */
    | Unnamed(text: string)
      /** An error returned by the database driver, unchanged. */
    | Db(cause: DbError)
  {
    /** The six package-level sentinel values. */
    predicate IsSentinel() {
      !Unnamed? && !Db?
    }
  }

  /** The value or the error of a Go `(T, error)` return. */
  datatype Result<T> = Ok(value: T) | Err(error: Error)

  /** The text `err.Error()` returns. */
  function Message(e: Error): string {
    match e
    case EmptyID => "передан пустой айди"
    case InvalidID => "задача с таким айди не найдена"
    case EmptyTask => "передана пустая задача"
    case EmptyData => "переданы пустые данные"
    case AlreadyExist => "задача с таким айди уже существует"
    case EmptyName => "необходимо передать наименование задачи"
    case Unnamed(text) => text
    case Db(NoRows) => "sql: no rows in result set"
    case Db(DriverFailure(message)) => message
  }
}
