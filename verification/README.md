# Task API storage core — a Dafny model

This project models the storage and validation core of a small task ("todo")
HTTP API written in Go:

- the in-memory repository `StorageRepository`, a map from id to task, with
  Create, GetById, Update, Delete and GetAllTask (module `MemoryStore`);
- the SQL repository `PostgresRepository`, above all the partial-update
  statement builder, with the database reduced to the answers it gives
  (module `PostgresStore`);
- the service `todoService`, written against the `TodoRepository`
  interface and therefore modelled over any backend, given as a record of
  the five repository operations on a backend state (module `Service`);
- the handlers' mapping from service outcomes to HTTP status codes and
  error bodies (module `Handlers`);
- the service and handlers running over the in-memory store, with the
  end-to-end behaviour the unit tests exercise (module `MemoryService`).

Supporting modules: `Models` (task and request records; Go pointers that
may be nil become `Option`), `Errors` (the six error sentinels, a fresh
`errors.New` value, and driver errors passed through), `Text` (Go's
`strings.TrimSpace` over the exact `unicode.IsSpace` set, the `%d`
rendering of numbers, `strings.Join`) and `KeyOrder` (one fixed enumeration
of a map's keys, standing for Go's unspecified map iteration order).

`uuid.NewString()` and `time.Now()` are parameters (`newId`, `now`). The
database is a parameter too: each `PostgresStore` operation takes the
driver's answer (a row, an `Exec` error, `sql.ErrNoRows`). Create, Update
and Delete return the statement they run with the error they report;
GetById and GetAllTask return only their classified result.

The model follows the code as written, which differs in these ways from
what a caller of the API might expect:

- `Update` on the in-memory store with a request that has no field present
  succeeds and changes nothing; only the SQL backend refuses it, with
  `EmptyData`.
- The service checks the create name for the empty string before
  trimming, so a name of white space only is accepted and stored as "".
  Its empty-name error is a fresh value with the text of `EmptyName`, not
  the sentinel, so the create endpoint answers it with 500.
- No endpoint names `EmptyName`, so a refused name is a 500 everywhere.
- When the in-memory `Update` refuses a name, the completed flag and the
  description of the same request have already been written.
- The SQL backend's `Delete` and `Update` return only the `Exec` error: an
  unknown id is never reported. Its `Create` does no validation and takes
  id and creation time from the `RETURNING` row.

## Model

| member | source | states |
|---|---|---|
| Text.TrimSpace | internal/repository/memory_map.go:65 | the result is the infix left after dropping leading and trailing Unicode white space; it is empty exactly when the input is all white space, and otherwise starts and ends with a non-space |
| Text.TrimSpaceIdempotent | internal/repository/memory_map.go:65-69 | trimming a trimmed name changes nothing |
| Text.Decimal | internal/repository/postgres_repository.go:49 | the `%d` rendering of a placeholder number is non-empty, all digits, with no leading zero except for 0 |
| Text.DecimalRoundTrip | internal/repository/postgres_repository.go:49-61 | reading the rendered placeholder number back gives the number |
| Text.DecimalInjective | internal/repository/postgres_repository.go:49-61 | distinct placeholder numbers are rendered as distinct text |
| Text.Join | internal/repository/postgres_repository.go:70 | no parts give ""; otherwise the result starts with the first part and is as long as all parts plus one separator between each neighbouring pair |
| Text.JoinAppend | internal/repository/postgres_repository.go:70 | joining one more part appends the separator and that part to the join of the others |
| KeyOrder.Ascending | internal/repository/memory_map.go:94-96 | the enumeration of the map's keys lists every key exactly once and nothing else |
| MemoryStore.Empty | internal/repository/memory_map.go:12-16 | a new store holds no task and satisfies the id-filing invariant |
| MemoryStore.GetById | internal/repository/memory_map.go:36-46 | "" gives EmptyID, an absent id InvalidID, a present id the stored task; nothing changes |
| MemoryStore.Create | internal/repository/memory_map.go:18-34 | nil task, then empty id, then taken id are refused with the store unchanged; success makes the new map exactly the old one with the task filed under its id, so the size grows by one; the name is not checked |
| MemoryStore.Update | internal/repository/memory_map.go:48-76 | empty id, then nil request (even for an absent id), then absent id are refused with the store unchanged; a name that trims to "" gives EmptyName after completed and description are applied; otherwise each present field overwrites (the name trimmed), each absent one keeps its value, id and creation time are kept; keys never change |
| MemoryStore.Delete | internal/repository/memory_map.go:78-89 | "" gives EmptyID, an absent id InvalidID, both with the store unchanged; success makes the new map exactly the old one without that key, after which GetById gives InvalidID |
| MemoryStore.GetAllTask | internal/repository/memory_map.go:91-99 | never fails; lists as many tasks as the map holds, exactly the stored values, without repeats in a well-formed store |
| MemoryStore.UpdateIdempotent | internal/repository/memory_map.go:57-73 | repeating the same update leaves the store and the error as the first application did |
| MemoryStore.UpdateThenGetById | internal/repository/memory_map_unit_test.go:63-77 | after a successful update a read returns the task with every present field applied and every absent one as before |
| MemoryStore.UpdateWithoutFields | internal/repository/memory_map.go:57-75 | a request with no field present returns no error and changes nothing |
| MemoryStore.UpdateCompletedOnly | internal/repository/memory_map.go:58-60 | an update of only the completed flag leaves name and description unchanged |
| MemoryStore.UpdatedNameIsTrimmed | internal/repository/repository.go:80-86 | an accepted name is stored non-blank and without surrounding white space |
| MemoryStore.DeleteTwice | internal/repository/repository.go:94-105 | deleting an id a second time gives InvalidID, not success |
| MemoryStore.EmptyStoreListsNothing | internal/repository/repository.go:107-115 | listing the empty store gives the empty sequence and no error |
| PostgresStore.Create | internal/repository/postgres_repository.go:36-41 | the insert binds name, description (NULL when absent) and completed; success takes id and creation time from the returned row; a failure passes the driver error through with the task unchanged |
| PostgresStore.PresentColumns | internal/repository/postgres_repository.go:48-64 | the columns set, in the order name, description, completed, are empty exactly when the request has no field |
| PostgresStore.BuildSetClause | internal/repository/postgres_repository.go:44-64 | the k-th fragment sets the k-th present column to placeholder $k, the k-th argument is that column's value, and the next placeholder is one past the count |
| PostgresStore.UpdateStatement | internal/repository/postgres_repository.go:43-71 | no statement when no field is present; otherwise the query is the one for the present columns, the arguments are their values followed by the id |
| PostgresStore.Update | internal/repository/postgres_repository.go:43-75 | EmptyData before any statement when no field is present; otherwise the statement runs and only its error is returned, never InvalidID, EmptyID or EmptyName |
| PostgresStore.GetById | internal/repository/postgres_repository.go:77-93 | no row gives InvalidID, any other driver error is passed through, a row is returned as scanned; "" is not refused as such |
| PostgresStore.ScanAll | internal/repository/postgres_repository.go:104-117 | succeeds exactly when every row scans, returning them in order; otherwise returns the error of the first row that failed |
| PostgresStore.GetAllTask | internal/repository/postgres_repository.go:95-118 | a failed query returns its error; otherwise the result is the scan of the delivered rows; zero rows is an empty listing, not an error |
| PostgresStore.Delete | internal/repository/postgres_repository.go:120-124 | runs the delete by id and reports an error exactly when the driver did |
| PostgresStore.QueryDependsOnlyOnPresence | internal/repository/postgres_repository.go:48-70 | two updates with the same fields present run the same query text, whatever the values and ids |
| PostgresStore.IdPlaceholderCountsFields | internal/repository/postgres_repository.go:70-71 | the id is the last argument and the query ends with its placeholder, numbered by the argument count |
| PostgresStore.NameAndCompletedStatement | internal/repository/postgres_repository.go:48-71 | setting name and completed gives "UPDATE todos SET task_name = $1, completed = $2 WHERE id = $3" with name, flag and id as arguments |
| PostgresStore.NeverNotFound | internal/repository/postgres_repository.go:120-124 | neither Delete nor Update ever reports an unknown id |
| Service.NameRequiredIsNotTheSentinel | internal/services/todo_service.go:31-33 | the create-time name error carries the text of EmptyName but is not the EmptyName sentinel |
| Service.CreateTodo | internal/services/todo_service.go:30-48 | exactly the empty name is refused before any repository call; otherwise one Create call with id, trimmed name, description as given, completed false and the given time; the backend's task and error are returned together |
| Service.GetById | internal/services/todo_service.go:50-53 | forwards the repository's answer unchanged with one GetById call |
| Service.GetAllTodos | internal/services/todo_service.go:55-57 | forwards the repository's answer unchanged with one GetAllTask call |
| Service.UpdateTodo | internal/services/todo_service.go:59-66 | a failed update returns its error with no value and no read; otherwise the answer is exactly a GetById of the same id on the updated backend |
| Service.DeleteTodo | internal/services/todo_service.go:68-70 | forwards the repository's delete result unchanged with one Delete call |
| Handlers.StatusFor | internal/handlers/todo_handler.go:32-184 | success gives 201, 200, 200, 204, 200 per endpoint; EmptyID 400 (not for listing), InvalidID 404 on read, update and delete, EmptyData 400 on create and update, AlreadyExist 409 on create; exactly the errors an endpoint does not name give 500 |
| Handlers.ErrorResponse | internal/handlers/todo_handler.go:42-55 | a named error echoes its own text under its status; every other error gets the fixed internal-error text |
| Handlers.BadJson | internal/handlers/todo_handler.go:35-38 | a body that does not bind answers 400 with the invalid-JSON text, calls nothing and changes nothing |
| Handlers.CreateTodo | internal/handlers/todo_handler.go:32-59 | binding failure answers 400 without calling the service; otherwise a service error gets its full error response (status and body) and success answers 201 with the created task |
| Handlers.GetById | internal/handlers/todo_handler.go:71-91 | nothing changes; a service error gets its full error response and a found task is answered 200 with that task |
| Handlers.Update | internal/handlers/todo_handler.go:105-134 | binding failure answers 400 without calling the service; otherwise an UpdateTodo error gets its full error response and success answers 200 with the re-read task (a nil task as an empty body) |
| Handlers.Delete | internal/handlers/todo_handler.go:146-166 | a DeleteTodo error gets its full error response; success answers 204 with no body |
| Handlers.GetAllTask | internal/handlers/todo_handler.go:175-184 | every error is 500 with the fixed text; success is 200 with the listing |
| Handlers.ClientStatusEchoesMessage | internal/handlers/todo_handler.go:42-55 | an error response is not a 500 exactly when the endpoint names the error, and then it carries the error's own text |
| Handlers.ClientStatusOnlyForSentinels | internal/handlers/todo_handler.go:52-54 | driver errors and fresh errors are always answered 500 |
| Handlers.NameAndTaskErrorsAreServerErrors | internal/handlers/todo_handler.go:116-130 | EmptyName and EmptyTask are answered 500 by every endpoint |
| MemoryService.Backend | internal/repository/repository.go:9-15 | the in-memory store seen through the repository interface: each of the five operations answers exactly as the store's own operation does, and Create hands back the task it was given |
| MemoryService.CreateThenGetById | internal/services/todo_service_unit_test.go:78-91 | creating with a fresh id and reading it back gives the trimmed name, the description and completed false |
| MemoryService.BlankNameIsStoredEmpty | internal/services/todo_service.go:31-35 | a white-space-only name passes and is stored as "" |
| MemoryService.CreateWithTakenId | internal/services/todo_service.go:37-47 | a taken id gives AlreadyExist, the store is unchanged, and the task is still returned with the error |
| MemoryService.CreateThenDeleteListsNothing | internal/services/todo_service_unit_test.go:187-201 | create then delete on an empty store leaves an empty listing |
| MemoryService.UpdateReturnsNewValues | internal/services/todo_service_unit_test.go:131-147 | an update with a new name and description returns the task carrying both |
| MemoryService.RefusedNameKeepsOtherFields | internal/repository/memory_map.go:58-68 | a refused name returns EmptyName and no task without a read, yet completed and description are already applied |
| MemoryService.BuyMilkScenario | internal/services/todo_service.go:30-70 | creating "buy milk" as t1 returns it with completed false, reading t1 returns the same task, completing it keeps the name, deleting it succeeds and a later read gives InvalidID |
| MemoryService.CreateEndpointStatuses | internal/handlers/todo_handler.go:40-58 | over the in-memory store the create endpoint answers an empty name 500, a taken id 409, a white-space name 201 |

## Left out

- Database I/O (`sql.DB`, connection pooling in internal/database/postgres.go), migrations (migrations/migrations.go) and the integration tests: the driver's answers are parameters.
- Configuration loading (internal/config/config.go), route wiring in main.go, swagger annotations, gin JSON binding and encoding: binding is a parameter (`None` when it fails) and bodies are abstract. A nil Go slice is encoded as JSON `null`; the model's empty listing does not distinguish it.
- The service over the SQL backend is not instantiated: that backend's state is the database itself, which is not modelled; its operations are modelled on their own.
- Concurrency: the in-memory store has no lock in the code, and none is modelled.
- Pointer aliasing: the Go store keeps the caller's pointer and mutates it in place; the model uses values and returns the new map.
- Nil arguments to the SQL backend and to `CreateTodo`: the Go code dereferences them and panics; the model takes plain values there.
- PostgresStore.GetAllTask: the code never checks `rows.Err()` after its loop (internal/repository/postgres_repository.go:106-117), so an error that ends the iteration early is dropped and a shortened listing comes back with no error; the model's row sequence stands for the rows delivered, and no contract promises the whole table.
- `PostgresStore.Create`: a scan that fails part-way may leave some fields written in Go; the model leaves the task unchanged on any failure.
- Map iteration order: Go's is unspecified; `KeyOrder` fixes one enumeration and the contracts state only order-independent facts.
- `package repository` declares the interface, `StorageRepository` and the error values twice (repository.go and memory_map.go / postgres_repository.go); one copy is modelled.
- The create handler's `ErrАlreadyExist` uses a Cyrillic letter; it is read as `AlreadyExist`.
- Unit tests that disagree with the code are not followed: an empty-id task is refused with EmptyID, not EmptyTask; EmptyName is answered 500, not 400; the service's empty-name error is not the sentinel; listing order is not relied on.
