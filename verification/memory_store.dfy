/** `StorageRepository`, the map-backed store of package repository
    (internal/repository/memory_map.go; internal/repository/repository.go
    holds a verbatim copy). The Go store keeps pointers and mutates the
    stored task in place; the model keeps values and returns the new map. */
module MemoryStore {
  import opened Models
  import opened Errors
  import Text
  import KeyOrder

  type Store = map<string, Todo>

  /** The store after a write and the error the write returned. */
  datatype Outcome = Outcome(store: Store, err: Option<Error>)

  /** Every task is filed under its own id: what `Create` establishes and
      every other operation keeps. */
  predicate Valid(s: Store) {
    forall k :: k in s ==> s[k].id == k
  }

  /** `Constructor`: the empty store. */
  function Empty(): (s: Store)
    ensures |s| == 0 && Valid(s)
  {
    map[]
  }

  function GetById(s: Store, id: string): (r: Result<Todo>)
    ensures r.Ok? <==> id != "" && id in s
    ensures r.Ok? ==> r.value == s[id]
    ensures id == "" ==> r == Err(EmptyID)
    ensures id != "" && id !in s ==> r == Err(InvalidID)
  {
    if id == "" then Err(EmptyID)
    else if id in s then Ok(s[id])
    else Err(InvalidID)
  }

  /** `Create`: a nil task, then an empty id, then a taken id are refused
      and leave the store as it was; otherwise the task is filed under its
      id and nothing else changes. The name is not checked. */
  function Create(s: Store, task: Option<Todo>): (o: Outcome)
    ensures task.None? ==> o.err == Some(EmptyTask)
    ensures task.Some? && task.value.id == "" ==> o.err == Some(EmptyID)
    ensures task.Some? && task.value.id != "" && task.value.id in s ==> o.err == Some(AlreadyExist)
    ensures o.err.Some? ==> o.store == s
    ensures o.err.None? <==> task.Some? && task.value.id != "" && task.value.id !in s
    ensures o.err.None? ==>
              && o.store == s[task.value.id := task.value]
              && o.store.Keys == s.Keys + {task.value.id}
              && |o.store| == |s| + 1
              && GetById(o.store, task.value.id) == Ok(task.value)
              && (forall k :: k != task.value.id ==> GetById(o.store, k) == GetById(s, k))
    ensures Valid(s) ==> Valid(o.store)
  {
    if task.None? then Outcome(s, Some(EmptyTask))
    else if task.value.id == "" then Outcome(s, Some(EmptyID))
    else if task.value.id in s then Outcome(s, Some(AlreadyExist))
    else Outcome(s[task.value.id := task.value], None)
  }

  /** The task `t` with the fields present in `req` written over it: the
      name trimmed, the description and the completed flag as given. Only
      for requests whose name, if any, `Update` accepts. */
  function Patched(t: Todo, req: UpdateTodoRequest): Todo
    requires !RejectsName(req)
  {
    Todo(t.id,
         if req.taskName.Some? then Text.TrimSpace(req.taskName.value) else t.taskName,
         if req.description.Some? then req.description else t.description,
         req.completed.GetOr(t.completed),
         t.createdAt)
  }

  /** True when the request carries a name that trims to nothing. */
  predicate RejectsName(req: UpdateTodoRequest) {
    req.taskName.Some? && Text.TrimSpace(req.taskName.value) == ""
  }

  /** `Update`: an empty id, then a nil request (even for an unknown id),
      then an unknown id are refused and leave the store as it was. The
      completed flag and the description are written before the name is
      checked, so a name that trims to nothing is refused with `EmptyName`
      after those two fields have already been applied. */
  function Update(s: Store, id: string, req: Option<UpdateTodoRequest>): (o: Outcome)
    ensures id == "" ==> o == Outcome(s, Some(EmptyID))
    ensures id != "" && req.None? ==> o == Outcome(s, Some(EmptyTask))
    ensures id != "" && req.Some? && id !in s ==> o == Outcome(s, Some(InvalidID))
    ensures id != "" && req.Some? && id in s && RejectsName(req.value) ==>
              && o.err == Some(EmptyName)
              && o.store == s[id := Patched(s[id], req.value.(taskName := None))]
              && o.store[id].taskName == s[id].taskName
    ensures o.err.None? <==> id != "" && req.Some? && id in s && !RejectsName(req.value)
    ensures o.err.None? ==> o.store == s[id := Patched(s[id], req.value)]
    ensures (o.err.None? || o.err == Some(EmptyName)) ==>
              var u := req.value;
              && o.store[id].id == s[id].id && o.store[id].createdAt == s[id].createdAt
              && o.store[id].completed == u.completed.GetOr(s[id].completed)
              && o.store[id].description == (if u.description.Some? then u.description else s[id].description)
              && o.store[id].taskName == (if o.err.None? && u.taskName.Some? then Text.TrimSpace(u.taskName.value)
                                          else s[id].taskName)
    ensures o.store.Keys == s.Keys
    ensures Valid(s) ==> Valid(o.store)
  {
    if id == "" then Outcome(s, Some(EmptyID))
    else if req.None? then Outcome(s, Some(EmptyTask))
    else if id !in s then Outcome(s, Some(InvalidID))
    else
      var u := req.value;
      var t := s[id];
      var t1 := if u.completed.Some? then t.(completed := u.completed.value) else t;
      var t2 := if u.description.Some? then t1.(description := u.description) else t1;
      if u.taskName.Some? then
        var name := Text.TrimSpace(u.taskName.value);
        if name == "" then Outcome(s[id := t2], Some(EmptyName))
        else Outcome(s[id := t2.(taskName := name)], None)
      else
        Outcome(s[id := t2], None)
  }

  /** `Delete`: an empty id, then an unknown id are refused and leave the
      store as it was; otherwise exactly that key is removed. */
  function Delete(s: Store, id: string): (o: Outcome)
    ensures id == "" ==> o == Outcome(s, Some(EmptyID))
    ensures id != "" && id !in s ==> o == Outcome(s, Some(InvalidID))
    ensures o.err.None? <==> id != "" && id in s
    ensures o.err.None? ==>
              && o.store == s - {id}
              && o.store.Keys == s.Keys - {id}
              && |o.store| == |s| - 1
              && GetById(o.store, id) == Err(InvalidID)
              && (forall k :: k != id ==> GetById(o.store, k) == GetById(s, k))
    ensures Valid(s) ==> Valid(o.store)
  {
    if id == "" then Outcome(s, Some(EmptyID))
    else if id in s then Outcome(s - {id}, None)
    else Outcome(s, Some(InvalidID))
  }

  /** `GetAllTask`: never fails; lists every stored task once, in an order
      the caller must not rely on. */
  function GetAllTask(s: Store): (r: Result<seq<Todo>>)
    ensures r.Ok?
    ensures |r.value| == |s|
    ensures forall t :: t in r.value <==> t in s.Values
    ensures Valid(s) ==> forall i, j :: 0 <= i < j < |r.value| ==> r.value[i] != r.value[j]
  {
    var ks := KeyOrder.Ascending(s.Keys);
    var listing := seq(|ks|, i requires 0 <= i < |ks| => s[ks[i]]);
    assert forall t :: t in s.Values ==> t in listing by {
      forall t | t in s.Values
        ensures t in listing
      {
        var k :| k in s && s[k] == t;
        var i :| 0 <= i < |ks| && ks[i] == k;
        assert listing[i] == t;
      }
    }
    Ok(listing)
  }

  /** Applying the same update a second time changes nothing further; this
      holds even when the name is refused, since the fields applied before
      the refusal are applied the same way again. */
  lemma UpdateIdempotent(s: Store, id: string, req: Option<UpdateTodoRequest>)
    ensures var once := Update(s, id, req);
            Update(once.store, id, req) == once
  {
    if id != "" && req.Some? && id in s {
      var u := req.value;
      if u.taskName.Some? {
        Text.TrimSpaceIdempotent(u.taskName.value);
      }
    }
  }

  /** After a successful update, reading the task back shows every present
      field applied and every absent field as it was. */
  lemma UpdateThenGetById(s: Store, id: string, req: UpdateTodoRequest)
    requires id in s && id != "" && !RejectsName(req)
    ensures var o := Update(s, id, Some(req));
            && o.err == None
            && var t := GetById(o.store, id);
            && t.Ok?
            && t.value.id == s[id].id && t.value.createdAt == s[id].createdAt
            && t.value.completed == req.completed.GetOr(s[id].completed)
            && t.value.description == (if req.description.Some? then req.description else s[id].description)
            && t.value.taskName == (if req.taskName.Some? then Text.TrimSpace(req.taskName.value) else s[id].taskName)
  {
  }

  /** A request with no field present succeeds and changes nothing. */
  lemma UpdateWithoutFields(s: Store, id: string, req: UpdateTodoRequest)
    requires id != "" && id in s && !req.HasAnyField()
    ensures Update(s, id, Some(req)) == Outcome(s, None)
  {
    assert Patched(s[id], req) == s[id];
  }

  /** An update carrying only the completed flag leaves the name and the
      description of the stored task as they were. */
  lemma UpdateCompletedOnly(s: Store, id: string, done: bool)
    requires id != "" && id in s
    ensures var o := Update(s, id, Some(UpdateTodoRequest(None, None, Some(done))));
            && o.err == None
            && o.store[id].completed == done
            && o.store[id].taskName == s[id].taskName
            && o.store[id].description == s[id].description
  {
  }

  /** A name accepted by `Update` is stored non-blank and without
      surrounding white space. */
  lemma UpdatedNameIsTrimmed(s: Store, id: string, req: UpdateTodoRequest)
    requires req.taskName.Some?
    requires Update(s, id, Some(req)).err == None
    ensures var name := Update(s, id, Some(req)).store[id].taskName;
            && name != ""
            && !Text.IsSpace(name[0]) && !Text.IsSpace(name[|name| - 1])
  {
  }

  /** Deleting an id that was just deleted reports `InvalidID`, not success. */
  lemma DeleteTwice(s: Store, id: string)
    requires id != "" && id in s
    ensures var once := Delete(s, id);
            && once.err == None
            && Delete(once.store, id) == Outcome(once.store, Some(InvalidID))
  {
  }

  /** Listing the empty store gives the empty sequence and no error. */
  lemma EmptyStoreListsNothing()
    ensures GetAllTask(Empty()) == Ok([])
  {
  }
}
