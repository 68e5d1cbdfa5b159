/** `todoService` (internal/services/todo_service.go). The service only
    sees the `TodoRepository` interface, so it is modelled over any backend:
    a record of the five repository operations on a backend state `S`.
    Every reply also lists the repository calls the service made, in order. */
module Service {
  import opened Models
  import opened Errors
  import Text

  /** What the backend's `Create` reports: its new state, the task as the
      backend left it (the SQL backend overwrites id and creation time), and
      the error. */
  datatype Stored<S> = Stored(state: S, task: Todo, err: Option<Error>)

  /** What a backend write reports: its new state and the error. */
  datatype Changed<S> = Changed(state: S, err: Option<Error>)

  /** The `TodoRepository` interface. Reads do not change the backend. */
  datatype Repo<!S> = Repo(
    create: (S, Todo) -> Stored<S>,
    getById: (S, string) -> Result<Todo>,
    update: (S, string, Option<UpdateTodoRequest>) -> Changed<S>,
    delete: (S, string) -> Changed<S>,
    getAll: S -> Result<seq<Todo>>)

  datatype Call =
    | CreateCall(task: Todo)
    | GetByIdCall(id: string)
    | UpdateCall(id: string, req: Option<UpdateTodoRequest>)
    | DeleteCall(id: string)
    | GetAllCall

  /** A service answer: the backend state afterwards, the repository calls
      made, the returned value (Go's possibly-nil pointer) and the error. */
  datatype Reply<S, T> = Reply(state: S, calls: seq<Call>, value: Option<T>, err: Option<Error>)

  /** The error `CreateTodo` builds for an empty name: a fresh value with
      the text of `EmptyName`, not the `EmptyName` sentinel itself. */
  const NameRequired: Error := Unnamed("необходимо передать наименование задачи")

  lemma NameRequiredIsNotTheSentinel()
    ensures Message(NameRequired) == Message(EmptyName)
    ensures NameRequired != EmptyName && !NameRequired.IsSentinel()
  {
  }

  /** A `(T, error)` pair from a repository result. */
  function Split<T>(r: Result<T>): (p: (Option<T>, Option<Error>))
    ensures r.Ok? ==> p == (Some(r.value), None)
    ensures r.Err? ==> p == (None, Some(r.error))
  {
    match r
    case Ok(v) => (Some(v), None)
    case Err(e) => (None, Some(e))
  }

  /** `CreateTodo`: only the empty string is refused, before any repository
      call; the check comes before trimming, so a name of white space only
      is accepted and stored as "". Otherwise the task is built from the
      trimmed name, the description as given, `completed` false, the
      supplied id and time, and handed to the backend; the task is returned
      as the backend left it together with the backend's error, if any. */
  function CreateTodo<S(==)>(repo: Repo<S>, s: S, req: CreateTodoRequest, newId: string, now: Time)
    : (r: Reply<S, Todo>)
    ensures req.taskName == "" ==> r == Reply(s, [], None, Some(NameRequired))
    ensures req.taskName != "" ==>
              && |r.calls| == 1 && r.calls[0].CreateCall?
              && var t := r.calls[0].task;
              && t.id == newId
              && t.taskName == Text.TrimSpace(req.taskName)
              && t.description == req.description
              && !t.completed
              && t.createdAt == now
              && var c := repo.create(s, t);
              && r.state == c.state && r.value == Some(c.task) && r.err == c.err
  {
    if req.taskName == "" then
      Reply(s, [], None, Some(NameRequired))
    else
      var task := Todo(newId, Text.TrimSpace(req.taskName), req.description, false, now);
      var c := repo.create(s, task);
      Reply(c.state, [CreateCall(task)], Some(c.task), c.err)
  }

  /** `GetById`: the repository's answer, unchanged. */
  function GetById<S(==)>(repo: Repo<S>, s: S, id: string): (r: Reply<S, Todo>)
    ensures r.state == s && r.calls == [GetByIdCall(id)]
    ensures (r.value, r.err) == Split(repo.getById(s, id))
  {
    var (v, e) := Split(repo.getById(s, id));
    Reply(s, [GetByIdCall(id)], v, e)
  }

  /** `GetAllTodos`: the repository's answer, unchanged. */
  function GetAllTodos<S(==)>(repo: Repo<S>, s: S): (r: Reply<S, seq<Todo>>)
    ensures r.state == s && r.calls == [GetAllCall]
    ensures (r.value, r.err) == Split(repo.getAll(s))
  {
    var (v, e) := Split(repo.getAll(s));
    Reply(s, [GetAllCall], v, e)
  }

  /** `UpdateTodo`: when the update fails its error is returned at once and
      no read follows; otherwise the answer is exactly a fresh `GetById` of
      the same id on the updated backend. */
  function UpdateTodo<S(==)>(repo: Repo<S>, s: S, id: string, req: Option<UpdateTodoRequest>)
    : (r: Reply<S, Todo>)
    ensures var u := repo.update(s, id, req);
            && r.state == u.state
            && (u.err.Some? ==> r.calls == [UpdateCall(id, req)] && r.value == None && r.err == u.err)
            && (u.err.None? ==>
                  && r.calls == [UpdateCall(id, req), GetByIdCall(id)]
                  && (r.value, r.err) == Split(repo.getById(u.state, id)))
  {
    var u := repo.update(s, id, req);
    if u.err.Some? then
      Reply(u.state, [UpdateCall(id, req)], None, u.err)
    else
      var g := GetById(repo, u.state, id);
      Reply(g.state, [UpdateCall(id, req)] + g.calls, g.value, g.err)
  }

  /** `DeleteTodo`: the repository's answer, unchanged. */
  function DeleteTodo<S(==)>(repo: Repo<S>, s: S, id: string): (r: Reply<S, bool>)
    ensures r.calls == [DeleteCall(id)]
    ensures r.state == repo.delete(s, id).state && r.err == repo.delete(s, id).err
    ensures r.value == None
  {
    var d := repo.delete(s, id);
    Reply(d.state, [DeleteCall(id)], None, d.err)
  }
}
