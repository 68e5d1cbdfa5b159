/** The service and the handlers running over the in-memory store, and the
    behaviour the unit tests of internal/services exercise end to end. */
module MemoryService {
  import opened Models
  import opened Errors
  import Text
  import MemoryStore
  import Service
  import Handlers

  type Store = MemoryStore.Store

  /** `StorageRepository` seen through the `TodoRepository` interface. The
      in-memory store files the task it is given and never changes it. */
  function Backend(): (r: Service.Repo<Store>)
    ensures forall s: Store, t: Todo :: r.create(s, t).task == t
    ensures forall s: Store, t: Todo :: r.create(s, t).state == MemoryStore.Create(s, Some(t)).store
    ensures forall s: Store, t: Todo :: r.create(s, t).err == MemoryStore.Create(s, Some(t)).err
    ensures forall s: Store, id: string :: r.getById(s, id) == MemoryStore.GetById(s, id)
    ensures forall s: Store, id: string, req: Option<UpdateTodoRequest> ::
              r.update(s, id, req) == Service.Changed(MemoryStore.Update(s, id, req).store, MemoryStore.Update(s, id, req).err)
    ensures forall s: Store, id: string ::
              r.delete(s, id) == Service.Changed(MemoryStore.Delete(s, id).store, MemoryStore.Delete(s, id).err)
    ensures forall s: Store :: r.getAll(s) == MemoryStore.GetAllTask(s)
  {
    Service.Repo(
      (s: Store, t: Todo) =>
        var o := MemoryStore.Create(s, Some(t)); Service.Stored(o.store, t, o.err),
      MemoryStore.GetById,
      (s: Store, id: string, req: Option<UpdateTodoRequest>) =>
        var o := MemoryStore.Update(s, id, req); Service.Changed(o.store, o.err),
      (s: Store, id: string) =>
        var o := MemoryStore.Delete(s, id); Service.Changed(o.store, o.err),
      MemoryStore.GetAllTask)
  }

  /** Creating with a fresh id and reading that id back gives the trimmed
      name and the description of the request. */
  lemma CreateThenGetById(s: Store, req: CreateTodoRequest, newId: string, now: Time)
    requires req.taskName != "" && newId != "" && newId !in s
    ensures var c := Service.CreateTodo(Backend(), s, req, newId, now);
            && c.err == None
            && var g := Service.GetById(Backend(), c.state, newId);
            && g.err == None
            && g.value == c.value
            && g.value.value.taskName == Text.TrimSpace(req.taskName)
            && g.value.value.description == req.description
            && !g.value.value.completed
  {
  }

  /** A name of white space only is accepted and the task is stored with
      the empty name. */
  lemma BlankNameIsStoredEmpty(s: Store, name: string, newId: string, now: Time)
    requires name != "" && Text.AllSpace(name)
    requires newId != "" && newId !in s
    ensures var c := Service.CreateTodo(Backend(), s, CreateTodoRequest(name, None), newId, now);
            && c.err == None
            && c.state[newId].taskName == ""
  {
  }

  /** An id that is already taken is refused with `AlreadyExist`; the task
      filed under it stays as it was. */
  lemma CreateWithTakenId(s: Store, req: CreateTodoRequest, newId: string, now: Time)
    requires req.taskName != "" && newId != "" && newId in s
    ensures var c := Service.CreateTodo(Backend(), s, req, newId, now);
            && c.err == Some(AlreadyExist)
            && c.state == s
            && c.value.Some?
  {
  }

  /** Creating one task in the empty store and deleting it again leaves
      nothing to list. */
  lemma CreateThenDeleteListsNothing(req: CreateTodoRequest, newId: string, now: Time)
    requires req.taskName != "" && newId != ""
    ensures var c := Service.CreateTodo(Backend(), MemoryStore.Empty(), req, newId, now);
            var d := Service.DeleteTodo(Backend(), c.state, newId);
            var l := Service.GetAllTodos(Backend(), d.state);
            && c.err == None && d.err == None
            && l.err == None && l.value == Some([])
  {
    var c := Service.CreateTodo(Backend(), MemoryStore.Empty(), req, newId, now);
    var d := Service.DeleteTodo(Backend(), c.state, newId);
    assert d.state == map[];
    MemoryStore.EmptyStoreListsNothing();
  }

  /** Updating an existing task with a new name and description returns the
      task carrying both new values. */
  lemma UpdateReturnsNewValues(s: Store, id: string, name: string, description: string)
    requires id != "" && id in s
    requires Text.TrimSpace(name) == name && name != ""
    ensures var r := Service.UpdateTodo(Backend(), s, id, Some(UpdateTodoRequest(Some(name), Some(description), None)));
            && r.err == None
            && r.value.Some?
            && r.value.value.taskName == name
            && r.value.value.description == Some(description)
  {
  }

  /** A refused name still leaves the completed flag and the description of
      the same request applied, and the service returns no task. */
  lemma RefusedNameKeepsOtherFields(s: Store, id: string, name: string, description: string, done: bool)
    requires id != "" && id in s && Text.AllSpace(name)
    ensures var r := Service.UpdateTodo(Backend(), s, id, Some(UpdateTodoRequest(Some(name), Some(description), Some(done))));
            && r.err == Some(EmptyName)
            && r.value == None
            && |r.calls| == 1
            && r.state[id].completed == done
            && r.state[id].description == Some(description)
            && r.state[id].taskName == s[id].taskName
  {
  }

  /** The walk-through of the task lifecycle: create "buy milk" as "t1",
      read it, mark it completed, delete it, and find it gone. */
  lemma BuyMilkScenario(now: Time)
    ensures var c := Service.CreateTodo(Backend(), MemoryStore.Empty(), CreateTodoRequest("buy milk", None), "t1", now);
            && c.err == None
            && c.value == Some(Todo("t1", "buy milk", None, false, now))
            && var g := Service.GetById(Backend(), c.state, "t1");
            && g.value == c.value
            && var u := Service.UpdateTodo(Backend(), c.state, "t1", Some(UpdateTodoRequest(None, None, Some(true))));
            && u.err == None
            && u.value == Some(Todo("t1", "buy milk", None, true, now))
            && var d := Service.DeleteTodo(Backend(), u.state, "t1");
            && d.err == None
            && Service.GetById(Backend(), d.state, "t1").err == Some(InvalidID)
  {
    assert Text.TrimSpace("buy milk") == "buy milk" by {
      assert !Text.IsSpace("buy milk"[0]) && !Text.IsSpace("buy milk"[7]);
      assert Text.SkipSpace("buy milk", 0) == 0;
    }
  }

  /** Over the in-memory store the create endpoint answers an empty name
      with 500, a taken id with 409, and a white-space name with 201. */
  lemma CreateEndpointStatuses(s: Store, newId: string, now: Time)
    requires newId != ""
    ensures Handlers.CreateTodo(Backend(), s, Some(CreateTodoRequest("", None)), newId, now).response
              == Handlers.Response(500, Handlers.ErrorJson(Handlers.InternalErrorText))
    ensures newId in s ==>
              Handlers.CreateTodo(Backend(), s, Some(CreateTodoRequest("x", None)), newId, now).response.status == 409
    ensures newId !in s ==>
              Handlers.CreateTodo(Backend(), s, Some(CreateTodoRequest(" ", None)), newId, now).response.status == 201
  {
  }
}
