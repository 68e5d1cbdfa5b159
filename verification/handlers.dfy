/** `TodoHandler` (internal/handlers/todo_handler.go): what each endpoint
    answers for each outcome of the service. Request binding is a parameter
    (`None` when the body does not bind); JSON encoding is not modelled. */
module Handlers {
  import opened Models
  import opened Errors
  import Service

  datatype Op = CreateOp | GetByIdOp | UpdateOp | DeleteOp | GetAllOp

  const InternalErrorText := "внутренняя ошибка сервера"
  const BadJsonText := "неверный JSON"

  datatype Body =
    | ErrorJson(message: string)
    | TodoJson(todo: Todo)
    | TodosJson(todos: seq<Todo>)
    | NoBody

  datatype Response = Response(status: int, body: Body)

  /** The error values an endpoint's `switch` names; every other error
      falls to its `default` branch. */
  predicate Recognised(op: Op, e: Error) {
    match op
    case CreateOp => e == EmptyID || e == EmptyData || e == AlreadyExist
    case GetByIdOp => e == EmptyID || e == InvalidID
    case UpdateOp => e == EmptyID || e == InvalidID || e == EmptyData
    case DeleteOp => e == EmptyID || e == InvalidID
    case GetAllOp => false
  }

  /** The status an endpoint answers with for a service outcome. */
  function StatusFor(op: Op, err: Option<Error>): (code: int)
    ensures err.None? ==> code == (match op
                                   case CreateOp => 201
                                   case DeleteOp => 204
                                   case _ => 200)
    ensures err.Some? ==> (code == 500 <==> !Recognised(op, err.value))
    ensures err.Some? && err.value == EmptyID ==> code == (if op == GetAllOp then 500 else 400)
    ensures err.Some? && err.value == InvalidID ==> code == (if op in {GetByIdOp, UpdateOp, DeleteOp} then 404 else 500)
    ensures err.Some? && err.value == EmptyData ==> code == (if op in {CreateOp, UpdateOp} then 400 else 500)
    ensures err.Some? && err.value == AlreadyExist ==> code == (if op == CreateOp then 409 else 500)
  {
    match err
    case None =>
      (match op
       case CreateOp => 201
       case DeleteOp => 204
       case _ => 200)
    case Some(e) =>
      match op
      case CreateOp =>
        (match e
         case EmptyID => 400
         case EmptyData => 400
         case AlreadyExist => 409
         case _ => 500)
      case GetByIdOp =>
        (match e
         case EmptyID => 400
         case InvalidID => 404
         case _ => 500)
      case UpdateOp =>
        (match e
         case EmptyID => 400
         case InvalidID => 404
         case EmptyData => 400
         case _ => 500)
      case DeleteOp =>
        (match e
         case EmptyID => 400
         case InvalidID => 404
         case _ => 500)
      case GetAllOp => 500
  }

  /** The answer to an error: a recognised error echoes its own text, any
      other gets the fixed internal-error text. */
  function ErrorResponse(op: Op, e: Error): (r: Response)
    ensures r.status == StatusFor(op, Some(e))
    ensures r.body.ErrorJson?
    ensures r.body.message == if Recognised(op, e) then Message(e) else InternalErrorText
  {
    if Recognised(op, e) then Response(StatusFor(op, Some(e)), ErrorJson(Message(e)))
    else Response(500, ErrorJson(InternalErrorText))
  }

  /** What a handler did: the backend state afterwards, the repository calls
      the service made, and the response. */
  datatype Handled<S> = Handled(state: S, calls: seq<Service.Call>, response: Response)

  /** A body that does not bind answers 400 before the service is called. */
  function BadJson<S>(s: S): (h: Handled<S>)
    ensures h.state == s && h.calls == []
    ensures h.response == Response(400, ErrorJson(BadJsonText))
  {
    Handled(s, [], Response(400, ErrorJson(BadJsonText)))
  }

  /** `POST /todos` */
  function CreateTodo<S(==)>(repo: Service.Repo<S>, s: S, body: Option<CreateTodoRequest>, newId: string, now: Time)
    : (h: Handled<S>)
    ensures body.None? ==> h == BadJson(s)
    ensures body.Some? ==>
              var r := Service.CreateTodo(repo, s, body.value, newId, now);
              && h.state == r.state && h.calls == r.calls
              && h.response.status == StatusFor(CreateOp, r.err)
              && (r.err.Some? ==> h.response == ErrorResponse(CreateOp, r.err.value))
              && (r.err.None? ==> h.response == Response(201, TodoJson(r.value.value)))
  {
    if body.None? then BadJson(s)
    else
      var r := Service.CreateTodo(repo, s, body.value, newId, now);
      if r.err.Some? then Handled(r.state, r.calls, ErrorResponse(CreateOp, r.err.value))
      else Handled(r.state, r.calls, Response(201, TodoJson(r.value.value)))
  }

  /** The response to a service reply carrying a task: the error response,
      or 200 with the task (Go encodes a nil task as `null`, here `NoBody`). */
  function TodoReply<S>(op: Op, r: Service.Reply<S, Todo>): (h: Handled<S>)
    requires op == GetByIdOp || op == UpdateOp
    ensures h.state == r.state && h.calls == r.calls
    ensures h.response.status == StatusFor(op, r.err)
    ensures r.err.Some? ==> h.response == ErrorResponse(op, r.err.value)
    ensures r.err.None? && r.value.Some? ==> h.response == Response(200, TodoJson(r.value.value))
    ensures r.err.None? && r.value.None? ==> h.response == Response(200, NoBody)
  {
    if r.err.Some? then Handled(r.state, r.calls, ErrorResponse(op, r.err.value))
    else if r.value.Some? then Handled(r.state, r.calls, Response(200, TodoJson(r.value.value)))
    else Handled(r.state, r.calls, Response(200, NoBody))
  }

  /** `GET /todos/{id}` */
  function GetById<S(==)>(repo: Service.Repo<S>, s: S, id: string): (h: Handled<S>)
    ensures var r := Service.GetById(repo, s, id);
            && h.state == s && h.calls == r.calls
            && h.response.status == StatusFor(GetByIdOp, r.err)
            && (r.err.Some? ==> h.response == ErrorResponse(GetByIdOp, r.err.value))
            && (r.err.None? && r.value.Some? ==> h.response == Response(200, TodoJson(r.value.value)))
  {
    TodoReply(GetByIdOp, Service.GetById(repo, s, id))
  }

  /** `PATCH /todos/{id}`: a bound body is always passed on as a present
      request. */
  function Update<S(==)>(repo: Service.Repo<S>, s: S, id: string, body: Option<UpdateTodoRequest>)
    : (h: Handled<S>)
    ensures body.None? ==> h == BadJson(s)
    ensures body.Some? ==>
              var r := Service.UpdateTodo(repo, s, id, body);
              && h.state == r.state && h.calls == r.calls
              && h.response.status == StatusFor(UpdateOp, r.err)
              && (r.err.Some? ==> h.response == ErrorResponse(UpdateOp, r.err.value))
              && (r.err.None? && r.value.Some? ==> h.response == Response(200, TodoJson(r.value.value)))
              && (r.err.None? && r.value.None? ==> h.response == Response(200, NoBody))
  {
    if body.None? then BadJson(s)
    else TodoReply(UpdateOp, Service.UpdateTodo(repo, s, id, body))
  }

  /** `DELETE /todos/{id}`: 204 with no body on success. */
  function Delete<S(==)>(repo: Service.Repo<S>, s: S, id: string): (h: Handled<S>)
    ensures var r := Service.DeleteTodo(repo, s, id);
            && h.state == r.state && h.calls == r.calls
            && h.response.status == StatusFor(DeleteOp, r.err)
            && (r.err.Some? ==> h.response == ErrorResponse(DeleteOp, r.err.value))
            && (r.err.None? ==> h.response == Response(204, NoBody))
  {
    var r := Service.DeleteTodo(repo, s, id);
    if r.err.Some? then Handled(r.state, r.calls, ErrorResponse(DeleteOp, r.err.value))
    else Handled(r.state, r.calls, Response(204, NoBody))
  }

  /** `GET /todos`: every error is a 500 with the fixed text. */
  function GetAllTask<S(==)>(repo: Service.Repo<S>, s: S): (h: Handled<S>)
    ensures h.state == s
    ensures var r := Service.GetAllTodos(repo, s);
            && (r.err.Some? ==> h.response == Response(500, ErrorJson(InternalErrorText)))
            && (r.err.None? ==> h.response == Response(200, TodosJson(r.value.value)))
  {
    var r := Service.GetAllTodos(repo, s);
    if r.err.Some? then Handled(r.state, r.calls, ErrorResponse(GetAllOp, r.err.value))
    else Handled(r.state, r.calls, Response(200, TodosJson(r.value.value)))
  }

  /** A status other than 500 answers an error only when the endpoint
      names that error, and then the body carries the error's own text. */
  lemma ClientStatusEchoesMessage(op: Op, e: Error)
    ensures ErrorResponse(op, e).status != 500 <==> Recognised(op, e)
    ensures ErrorResponse(op, e).status != 500 ==> ErrorResponse(op, e).body.message == Message(e)
    ensures ErrorResponse(op, e).status == 500 ==> ErrorResponse(op, e).body.message == InternalErrorText
  {
  }

  /** Only the six sentinels of package repository can give a 4xx status:
      driver errors and fresh errors are always 500. */
  lemma ClientStatusOnlyForSentinels(op: Op, e: Error)
    requires !e.IsSentinel()
    ensures StatusFor(op, Some(e)) == 500
  {
  }

  /** No endpoint names `EmptyName` or `EmptyTask`: both are answered 500. */
  lemma NameAndTaskErrorsAreServerErrors(op: Op)
    ensures StatusFor(op, Some(EmptyName)) == 500
    ensures StatusFor(op, Some(EmptyTask)) == 500
  {
  }
}
