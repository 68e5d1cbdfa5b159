/** `PostgresRepository` (internal/repository/postgres_repository.go). The
    database is not modelled: each operation takes what the driver answered
    as a parameter. Create, Update and Delete return the statement they run
    together with the error they report; GetById and GetAllTask return only
    their classified result. */
module PostgresStore {
  import opened Models
  import opened Errors
  import Text

  /** What the driver answered: the scanned value, or a failure. */
  datatype DbResult<T> = Rows(value: T) | Failed(cause: DbError)

  /** A statement argument. */
  datatype Arg = TextArg(text: string) | BoolArg(flag: bool) | NullArg

  datatype Statement = Statement(query: string, args: seq<Arg>)

  /** The columns an update may set, in the order the builder visits them. */
  datatype Column = TaskNameColumn | DescriptionColumn | CompletedColumn

  function ColumnName(c: Column): string {
    match c
    case TaskNameColumn => "task_name"
    case DescriptionColumn => "description"
    case CompletedColumn => "completed"
  }

  /** `<column> = $<n>` */
  function Fragment(c: Column, n: nat): string {
    ColumnName(c) + " = $" + Text.Decimal(n)
  }

  /** The argument a nullable text column is bound to. */
  function NullableText(v: Option<string>): Arg {
    if v.Some? then TextArg(v.value) else NullArg
  }

  // ---------------------------------------------------------------------
  // Create

  const InsertQuery := "INSERT INTO todos (task_name, description, completed) VALUES ($1, $2, $3) RETURNING id, created_at"

  datatype Created = Created(task: Todo, executed: Statement, err: Option<Error>)

  /** `Create`: no validation at all. The insert binds name, description and
      completed; on success the id and creation time of the task are the
      ones the RETURNING row carries, and on failure the driver's error is
      returned unchanged with the task as it was. */
  function Create(task: Todo, returning: DbResult<(string, Time)>): (c: Created)
    ensures c.executed.query == InsertQuery
    ensures c.executed.args == [TextArg(task.taskName), NullableText(task.description), BoolArg(task.completed)]
    ensures returning.Rows? ==>
              && c.err == None
              && c.task == task.(id := returning.value.0, createdAt := returning.value.1)
    ensures returning.Failed? ==> c.task == task && c.err == Some(Db(returning.cause))
  {
    var insert := Statement(InsertQuery,
                            [TextArg(task.taskName), NullableText(task.description), BoolArg(task.completed)]);
    match returning
    case Rows((id, createdAt)) => Created(task.(id := id, createdAt := createdAt), insert, None)
    case Failed(cause) => Created(task, insert, Some(Db(cause)))
  }

  // ---------------------------------------------------------------------
  // Update: the dynamic SET clause

  /** The columns a request sets, in the fixed order name, description,
      completed: the reference the one-pass builder is checked against. */
  function PresentColumns(req: UpdateTodoRequest): (cols: seq<Column>)
    ensures |cols| == 0 <==> !req.HasAnyField()
    ensures |cols| <= 3
  {
    (if req.taskName.Some? then [TaskNameColumn] else [])
    + (if req.description.Some? then [DescriptionColumn] else [])
    + (if req.completed.Some? then [CompletedColumn] else [])
  }

  /** The value a request supplies for one of its present columns. */
  function ValueOf(req: UpdateTodoRequest, c: Column): Arg {
    match c
    case TaskNameColumn => if req.taskName.Some? then TextArg(req.taskName.value) else NullArg
    case DescriptionColumn => if req.description.Some? then TextArg(req.description.value) else NullArg
    case CompletedColumn => if req.completed.Some? then BoolArg(req.completed.value) else NullArg
  }

  /** The `SET` fragments for `cols`, numbering placeholders from `first`. */
  function Fragments(cols: seq<Column>, first: nat): (parts: seq<string>)
    ensures |parts| == |cols|
    ensures forall i :: 0 <= i < |cols| ==> parts[i] == Fragment(cols[i], first + i)
  {
    seq(|cols|, i requires 0 <= i < |cols| => Fragment(cols[i], first + i))
  }

  /** The update statement text for a list of columns. */
  function UpdateQuery(cols: seq<Column>): string {
    "UPDATE todos SET " + Text.Join(Fragments(cols, 1), ", ") + " WHERE id = $" + Text.Decimal(|cols| + 1)
  }

  /** The builder's state: fragments and arguments so far, and the next
      placeholder number. */
  datatype SetClause = SetClause(parts: seq<string>, args: seq<Arg>, argIndex: nat)

  /** One step of the builder: a present field adds its fragment with the
      next placeholder and its value as the next argument. */
  function Assign(b: SetClause, c: Column, present: bool, value: Arg): SetClause {
    if present then SetClause(b.parts + [Fragment(c, b.argIndex)], b.args + [value], b.argIndex + 1)
    else b
  }

  /** The SET clause, built in one pass over the three fields like the
      source does. The k-th fragment names the k-th present column with
      placeholder `$k`, the k-th argument is that column's value, and the
      next placeholder is one past the last. */
  function BuildSetClause(req: UpdateTodoRequest): (b: SetClause)
    ensures var cols := PresentColumns(req);
            && b.parts == Fragments(cols, 1)
            && |b.args| == |cols|
            && (forall i :: 0 <= i < |cols| ==> b.args[i] == ValueOf(req, cols[i]))
            && b.argIndex == |cols| + 1
  {
    var b0 := SetClause([], [], 1);
    var b1 := Assign(b0, TaskNameColumn, req.taskName.Some?, ValueOf(req, TaskNameColumn));
    var b2 := Assign(b1, DescriptionColumn, req.description.Some?, ValueOf(req, DescriptionColumn));
    var b3 := Assign(b2, CompletedColumn, req.completed.Some?, ValueOf(req, CompletedColumn));
    var cols := PresentColumns(req);
    assert b3.parts == Fragments(cols, 1);
    b3
  }

  /** The statement `Update` runs, or `None` when no field is present and
      it refuses before running anything. */
  function UpdateStatement(id: string, req: UpdateTodoRequest): (st: Option<Statement>)
    ensures st.None? <==> !req.HasAnyField()
    ensures st.Some? ==>
              var cols := PresentColumns(req);
              && st.value.query == UpdateQuery(cols)
              && |st.value.args| == |cols| + 1
              && (forall i :: 0 <= i < |cols| ==> st.value.args[i] == ValueOf(req, cols[i]))
              && st.value.args[|cols|] == TextArg(id)
  {
    var b := BuildSetClause(req);
    if |b.parts| == 0 then None
    else
      Some(Statement("UPDATE todos SET " + Text.Join(b.parts, ", ") + " WHERE id = $" + Text.Decimal(b.argIndex),
                     b.args + [TextArg(id)]))
  }

  datatype Written = Written(executed: Option<Statement>, err: Option<Error>)

  /** `Update`: `EmptyData` before any statement when no field is present;
      otherwise the statement runs and only its error is returned, so an
      unknown id is not reported. Neither the id nor the name is checked. */
  function Update(id: string, req: UpdateTodoRequest, exec: Option<DbError>): (w: Written)
    ensures !req.HasAnyField() ==> w == Written(None, Some(EmptyData))
    ensures req.HasAnyField() ==>
              && w.executed == UpdateStatement(id, req)
              && w.err == (if exec.Some? then Some(Db(exec.value)) else None)
    ensures w.err != Some(InvalidID) && w.err != Some(EmptyID) && w.err != Some(EmptyName)
  {
    match UpdateStatement(id, req)
    case None => Written(None, Some(EmptyData))
    case Some(st) => Written(Some(st), if exec.Some? then Some(Db(exec.value)) else None)
  }

  // ---------------------------------------------------------------------
  // GetById, GetAllTask, Delete

  /** `GetById`: no row becomes `InvalidID`; any other driver error is
      passed through unchanged. The id is not checked for emptiness. */
  function GetById(id: string, row: DbResult<Todo>): (r: Result<Todo>)
    ensures row.Rows? ==> r == Ok(row.value)
    ensures row == Failed(NoRows) ==> r == Err(InvalidID)
    ensures row.Failed? && row.cause != NoRows ==> r == Err(Db(row.cause))
    ensures r != Err(EmptyID)
  {
    match row
    case Rows(t) => Ok(t)
    case Failed(NoRows) => Err(InvalidID)
    case Failed(cause) => Err(Db(cause))
  }

  /** The rows scanned in order, stopping at the first row that fails to
      scan. */
  function ScanAll(rows: seq<DbResult<Todo>>): (r: Result<seq<Todo>>)
    ensures r.Ok? <==> forall i :: 0 <= i < |rows| ==> rows[i].Rows?
    ensures r.Ok? ==> |r.value| == |rows| && forall i :: 0 <= i < |rows| ==> r.value[i] == rows[i].value
    ensures r.Err? ==> exists i :: 0 <= i < |rows| && FirstFailure(rows, i) && r.error == Db(rows[i].cause)
  {
    if |rows| == 0 then Ok([])
    else if rows[0].Failed? then
      assert FirstFailure(rows, 0);
      Err(Db(rows[0].cause))
    else
      match ScanAll(rows[1..])
      case Ok(rest) => Ok([rows[0].value] + rest)
      case Err(e) =>
        var i :| 0 <= i < |rows| - 1 && FirstFailure(rows[1..], i) && e == Db(rows[1..][i].cause);
        assert FirstFailure(rows, i + 1);
        Err(e)
  }

  /** Row `i` is the first that failed to scan. */
  predicate FirstFailure(rows: seq<DbResult<Todo>>, i: int) {
    0 <= i < |rows| && rows[i].Failed? && forall j :: 0 <= j < i ==> rows[j].Rows?
  }

  /** `GetAllTask`: a failed query or a row that fails to scan returns that
      error; otherwise every row the cursor delivered, in order. The cursor's
      own iteration error is never consulted, so `query.value` stands for
      the rows delivered before the cursor stopped, whether it stopped at
      the end or on an error. No rows is an empty listing, not an error. */
  function GetAllTask(query: DbResult<seq<DbResult<Todo>>>): (r: Result<seq<Todo>>)
    ensures query.Failed? ==> r == Err(Db(query.cause))
    ensures query.Rows? && query.value == [] ==> r == Ok([])
    ensures query.Rows? ==> r == ScanAll(query.value)
  {
    match query
    case Failed(cause) => Err(Db(cause))
    case Rows(rows) => ScanAll(rows)
  }

  /** `Delete`: runs the delete and returns only its error; an unknown or
      empty id is not reported. */
  function Delete(id: string, exec: Option<DbError>): (r: Written)
    ensures r.executed == Some(Statement("DELETE FROM todos WHERE id = $1", [TextArg(id)]))
    ensures r.err.None? <==> exec.None?
    ensures r.err.Some? ==> r.err.value == Db(exec.value)
  {
    Written(Some(Statement("DELETE FROM todos WHERE id = $1", [TextArg(id)])),
            if exec.Some? then Some(Db(exec.value)) else None)
  }

  /** The statement text depends only on which fields are present, never on
      their values or on the id. */
  lemma QueryDependsOnlyOnPresence(id1: string, r1: UpdateTodoRequest, id2: string, r2: UpdateTodoRequest)
    requires r1.HasAnyField()
    requires PresentColumns(r1) == PresentColumns(r2)
    ensures UpdateStatement(id1, r1).value.query == UpdateStatement(id2, r2).value.query
  {
  }

  /** The id is bound last, and the query ends with its placeholder, whose
      number is the number of arguments: one more than the fields set. */
  lemma IdPlaceholderCountsFields(id: string, req: UpdateTodoRequest)
    requires req.HasAnyField()
    ensures var st := UpdateStatement(id, req).value;
            var n := |st.args|;
            && n == |PresentColumns(req)| + 1
            && st.query[|st.query| - |Text.Decimal(n)|..] == Text.Decimal(n)
            && st.args[n - 1] == TextArg(id)
  {
    var cols := PresentColumns(req);
    var st := UpdateStatement(id, req).value;
    var tail := Text.Decimal(|cols| + 1);
    assert st.query == ("UPDATE todos SET " + Text.Join(Fragments(cols, 1), ", ") + " WHERE id = $") + tail;
  }

  /** Neither Delete nor Update ever reports an unknown id. */
  lemma NeverNotFound(id: string, req: UpdateTodoRequest, exec: Option<DbError>)
    ensures Delete(id, exec).err != Some(InvalidID)
    ensures Update(id, req, exec).err != Some(InvalidID)
  {
  }

  /** The placeholders of a two-field update, written out. */
  lemma TwoFragments()
    ensures Fragments([TaskNameColumn, CompletedColumn], 1) == ["task_name = $1", "completed = $2"]
  {
    assert Text.Decimal(1) == [Text.DigitChar(1)] == "1";
    assert Text.Decimal(2) == [Text.DigitChar(2)] == "2";
    var parts := Fragments([TaskNameColumn, CompletedColumn], 1);
    assert parts[0] == "task_name" + " = $" + "1" == "task_name = $1";
    assert parts[1] == "completed" + " = $" + "2" == "completed = $2";
  }

  /** An update of the name and the completed flag numbers its placeholders
      1, 2 and 3, with ", " between the two assignments and the id bound
      last. */
  lemma NameAndCompletedStatement(id: string, name: string, done: bool)
    ensures var st := UpdateStatement(id, UpdateTodoRequest(Some(name), None, Some(done)));
            && st.Some?
            && st.value.query == "UPDATE todos SET " + "task_name = $1" + ", " + "completed = $2" + " WHERE id = $" + "3"
            && st.value.args == [TextArg(name), BoolArg(done), TextArg(id)]
  {
    var req := UpdateTodoRequest(Some(name), None, Some(done));
    var cols := [TaskNameColumn, CompletedColumn];
    assert PresentColumns(req) == cols;
    TwoFragments();
    var parts := Fragments(cols, 1);
    assert parts == ["task_name = $1", "completed = $2"];
    assert Text.Join(parts[1..], ", ") == "completed = $2";
    assert Text.Decimal(3) == [Text.DigitChar(3)] == "3";
    var st := UpdateStatement(id, req).value;
    assert st.args[0] == TextArg(name) && st.args[1] == BoolArg(done) && st.args[2] == TextArg(id);
  }
}
