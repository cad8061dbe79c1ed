/** The web API's todo list (app.py). As on the command line, every request
    loads the whole list from the JSON file, changes it in memory and writes
    it back; the file is the `todos` field of `TodoApiFile` and `saves`
    counts the writes. Ids are handed out as one more than the largest id
    and are never renumbered, so the invariant to protect is that ids stay
    unique; a request that fails validation writes nothing. */
module TodoApi {
  import opened Basics

  /** `VALID_STATUSES` */
  const ValidStatuses: seq<string> := ["pending", "in_progress", "on_hold", "completed"]

  const TaskRequired: string := "Task is required"
  const InvalidStatus: string := "Invalid status. Must be one of: pending, in_progress, on_hold, completed"
  const TodoNotFound: string := "Todo not found"

  /** One stored record: `{id, task, priority, status, created_at, completed_at}`.
      `task` and `priority` hold whatever JSON value the request carried;
      `status` is None for a record stored without one. */
  datatype Todo = Todo(
    id: int,
    task: Json,
    priority: Json,
    status: Option<string>,
    createdAt: Timestamp,
    completedAt: Option<Timestamp>)

  /** What a handler answers, before it is turned into JSON. */
  datatype Response =
    | Created(todo: Todo)
    | Updated(todo: Todo)
    | Deleted(todo: Todo)
    | Cleared(count: nat)
    | BadRequest(error: string)
    | NotFound(error: string)

  /** The HTTP status code each handler returns. */
  function StatusCode(r: Response): int
  {
    match r
    case Created(_) => 201
    case Updated(_) => 200
    case Deleted(_) => 200
    case Cleared(_) => 200
    case BadRequest(_) => 400
    case NotFound(_) => 404
  }

  function Ids(s: seq<Todo>): (r: seq<int>)
    ensures |r| == |s|
    ensures forall k :: 0 <= k < |s| ==> r[k] == s[k].id
  {
    seq(|s|, k requires 0 <= k < |s| => s[k].id)
  }

  predicate UniqueIds(s: seq<Todo>)
  {
    forall i, j :: 0 <= i < j < |s| ==> s[i].id != s[j].id
  }

  /** `completed_at` is set exactly when the status is "completed". */
  predicate Consistent(t: Todo)
  {
    t.completedAt.Some? <==> t.status == Some("completed")
  }

  predicate AllConsistent(s: seq<Todo>)
  {
    forall k :: 0 <= k < |s| ==> Consistent(s[k])
  }

  // ---------------------------------------------------------------------
  // get_next_id

  /** `max(todo["id"] for todo in todos)` */
  function MaxId(s: seq<Todo>): (m: int)
    requires s != []
    ensures forall k :: 0 <= k < |s| ==> s[k].id <= m
    ensures m in Ids(s)
  {
    if |s| == 1 then s[0].id
    else
      var rest := MaxId(s[1..]);
      assert forall k :: 1 <= k < |s| ==> s[k] == s[1..][k - 1];
      assert Ids(s[1..]) == Ids(s)[1..];
      if s[0].id >= rest then s[0].id else rest
  }

  /** `get_next_id(todos)`: 1 for an empty list, else one more than the largest id. */
  function NextId(s: seq<Todo>): (r: int)
    ensures s == [] ==> r == 1
    ensures forall k :: 0 <= k < |s| ==> s[k].id < r
    ensures s != [] ==> r - 1 in Ids(s)
  {
    if s == [] then 1 else MaxId(s) + 1
  }

  // ---------------------------------------------------------------------
  // The handlers, as functions of the stored list

  /** `not data or not data.get("task")`: the body is absent or empty, or its task is missing or falsy. */
  predicate MissingTask(data: Option<map<string, Json>>)
  {
    data.None? || data.value == map[] || "task" !in data.value || !Truthy(data.value["task"])
  }

  /** POST /api/todos */
  function AddSpec(s: seq<Todo>, data: Option<map<string, Json>>, now: Timestamp): (r: Step<Todo, Response>)
    ensures MissingTask(data) <==> !r.saved
    ensures !r.saved ==> r.todos == s && r.outcome == BadRequest(TaskRequired)
    ensures r.saved ==> |r.todos| == |s| + 1 && r.todos[..|s|] == s
  {
    if MissingTask(data) then Step(s, BadRequest(TaskRequired), false)
    else
      var body := data.value;
      var todo := Todo(
        NextId(s),
        body["task"],
        if "priority" in body then body["priority"] else JStr("medium"),
        Some("pending"),
        now,
        None);
      Step(s + [todo], Created(todo), true)
  }

  /** `data["status"] in VALID_STATUSES` */
  predicate IsValidStatus(v: Json)
  {
    v.JStr? && v.s in ValidStatuses
  }

  /** The update carries a status that is not one of the four. */
  predicate RejectsStatus(data: map<string, Json>)
  {
    "status" in data && !IsValidStatus(data["status"])
  }

  /** The field assignments of `update_todo` on the matched record, in the handler's order. */
  function Patched(t: Todo, data: map<string, Json>, now: Timestamp): (r: Todo)
    requires !RejectsStatus(data)
    ensures r.id == t.id && r.createdAt == t.createdAt
    ensures "status" in data ==> Consistent(r)
  {
    var t1 :=
      if "status" in data then
        var status := data["status"].s;
        t.(status := Some(status), completedAt := if status == "completed" then Some(now) else None)
      else t;
    var t2 := if "task" in data then t1.(task := data["task"]) else t1;
    if "priority" in data then t2.(priority := data["priority"]) else t2
  }

  /** PUT /api/todos/<id> */
  function UpdateSpec(s: seq<Todo>, id: int, data: map<string, Json>, now: Timestamp): (r: Step<Todo, Response>)
    ensures Ids(r.todos) == Ids(s)
    ensures !r.saved ==> r.todos == s
    ensures r.saved <==> id in Ids(s) && !RejectsStatus(data)
  {
    match IndexOf(Ids(s), id)
    case None => Step(s, NotFound(TodoNotFound), false)
    case Some(i) =>
      if RejectsStatus(data) then Step(s, BadRequest(InvalidStatus), false)
      else
        var todo := Patched(s[i], data, now);
        Step(s[i := todo], Updated(todo), true)
  }

  /** DELETE /api/todos/<id> */
  function DeleteSpec(s: seq<Todo>, id: int): (r: Step<Todo, Response>)
    ensures r.saved <==> id in Ids(s)
    ensures r.saved ==> |r.todos| == |s| - 1
    ensures !r.saved ==> r.todos == s && r.outcome == NotFound(TodoNotFound)
  {
    match IndexOf(Ids(s), id)
    case None => Step(s, NotFound(TodoNotFound), false)
    case Some(i) => Step(RemoveAt(s, i), Deleted(s[i]), true)
  }

  /** `t.get("status", "pending") != "completed"` */
  predicate IsOpen(t: Todo)
  {
    t.status.GetOr("pending") != "completed"
  }

  /** `[t for t in todos if t.get("status", "pending") != "completed"]` */
  function OpenTodos(s: seq<Todo>): (r: seq<Todo>)
    ensures |r| <= |s|
    ensures forall t :: t in r <==> t in s && IsOpen(t)
  {
    if s == [] then []
    else if IsOpen(s[0]) then [s[0]] + OpenTodos(s[1..])
    else OpenTodos(s[1..])
  }

  /** Number of records whose status is "completed". */
  function CountCompleted(s: seq<Todo>): nat
  {
    if s == [] then 0
    else (if IsOpen(s[0]) then 0 else 1) + CountCompleted(s[1..])
  }

  /** DELETE /api/todos/clear-completed */
  function ClearSpec(s: seq<Todo>): (r: Step<Todo, Response>)
    ensures r.saved
    ensures r.outcome == Cleared(CountCompleted(s))
    ensures |r.todos| == |s| - CountCompleted(s)
  {
    OpenCount(s);
    var open := OpenTodos(s);
    Step(open, Cleared(|s| - |open|), true)
  }

  // ---------------------------------------------------------------------
  // Facts about the filter

  lemma {:induction false} OpenCount(s: seq<Todo>)
    ensures |OpenTodos(s)| + CountCompleted(s) == |s|
  {
    if s != [] {
      OpenCount(s[1..]);
    }
  }

  /** The filter keeps the records' relative order: it distributes over concatenation. */
  lemma {:induction false} OpenTodosAppend(a: seq<Todo>, b: seq<Todo>)
    ensures OpenTodos(a + b) == OpenTodos(a) + OpenTodos(b)
  {
    if a != [] {
      assert (a + b)[0] == a[0];
      assert (a + b)[1..] == a[1..] + b;
      OpenTodosAppend(a[1..], b);
    } else {
      assert a + b == b;
    }
  }

  /** Removing records keeps ids unique: the survivors of the filter form a subsequence. */
  lemma {:induction false} OpenTodosKeepUniqueIds(s: seq<Todo>)
    requires UniqueIds(s)
    ensures UniqueIds(OpenTodos(s))
  {
    if s != [] {
      OpenTodosKeepUniqueIds(s[1..]);
      if IsOpen(s[0]) {
        var r := OpenTodos(s);
        forall j | 0 < j < |r|
          ensures r[0].id != r[j].id
        {
          assert r[j] in OpenTodos(s[1..]);
          var k :| 0 <= k < |s[1..]| && s[1..][k] == r[j];
          assert s[k + 1] == r[j];
        }
      }
    }
  }

  /** The filter keeps completion data consistent. */
  lemma OpenTodosKeepConsistency(s: seq<Todo>)
    requires AllConsistent(s)
    ensures AllConsistent(OpenTodos(s))
  {
    var r := OpenTodos(s);
    forall k | 0 <= k < |r|
      ensures Consistent(r[k])
    {
      assert r[k] in s;
    }
  }

  // ---------------------------------------------------------------------
  // Properties of the handlers

  /** The next id is larger than every id in the list, so an appended record never repeats one. */
  lemma AddKeepsIdsUnique(s: seq<Todo>, data: Option<map<string, Json>>, now: Timestamp)
    requires UniqueIds(s)
    ensures UniqueIds(AddSpec(s, data, now).todos)
  {
    var r := AddSpec(s, data, now).todos;
    if !MissingTask(data) {
      assert r[|s|].id == NextId(s);
      assert forall k :: 0 <= k < |s| ==> r[k] == s[k];
    }
  }

  /** Every handler keeps ids unique. */
  lemma HandlersKeepIdsUnique(s: seq<Todo>, id: int, data: Option<map<string, Json>>, patch: map<string, Json>, now: Timestamp)
    requires UniqueIds(s)
    ensures UniqueIds(AddSpec(s, data, now).todos)
    ensures UniqueIds(UpdateSpec(s, id, patch, now).todos)
    ensures UniqueIds(DeleteSpec(s, id).todos)
    ensures UniqueIds(ClearSpec(s).todos)
  {
    AddKeepsIdsUnique(s, data, now);
    var u := UpdateSpec(s, id, patch, now).todos;
    assert forall k :: 0 <= k < |u| ==> u[k].id == Ids(u)[k] == Ids(s)[k];
    OpenTodosKeepUniqueIds(s);
  }

  /** Every handler keeps `completed_at` set exactly on completed records. */
  lemma HandlersKeepConsistency(s: seq<Todo>, id: int, data: Option<map<string, Json>>, patch: map<string, Json>, now: Timestamp)
    requires AllConsistent(s)
    ensures AllConsistent(AddSpec(s, data, now).todos)
    ensures AllConsistent(UpdateSpec(s, id, patch, now).todos)
    ensures AllConsistent(DeleteSpec(s, id).todos)
    ensures AllConsistent(ClearSpec(s).todos)
  {
    OpenTodosKeepConsistency(s);
  }

  /** A body without a usable task is refused with 400 and the list is not touched. */
  lemma AddRejectsMissingTask(s: seq<Todo>, data: Option<map<string, Json>>, now: Timestamp)
    requires MissingTask(data)
    ensures AddSpec(s, data, now) == Step(s, BadRequest(TaskRequired), false)
    ensures StatusCode(AddSpec(s, data, now).outcome) == 400
  {
  }

  /** A created record is pending, not completed, carries the request's task and
      its priority or "medium", and has a fresh id. */
  lemma AddCreatesPendingRecord(s: seq<Todo>, data: Option<map<string, Json>>, now: Timestamp)
    requires !MissingTask(data)
    ensures var r := AddSpec(s, data, now);
      && r.outcome == Created(r.todos[|s|]) && StatusCode(r.outcome) == 201
      && r.todos == s + [r.todos[|s|]]
      && r.todos[|s|].task == data.value["task"]
      && r.todos[|s|].priority == (if "priority" in data.value then data.value["priority"] else JStr("medium"))
      && r.todos[|s|].status == Some("pending") && r.todos[|s|].completedAt == None
      && r.todos[|s|].createdAt == now
      && r.todos[|s|].id !in Ids(s)
  {
  }

  /** An invalid status is refused before any field changes: nothing is written. */
  lemma UpdateRejectsInvalidStatus(s: seq<Todo>, id: int, data: map<string, Json>, now: Timestamp)
    requires RejectsStatus(data)
    ensures UpdateSpec(s, id, data, now).todos == s
    ensures !UpdateSpec(s, id, data, now).saved
    ensures id in Ids(s) ==> UpdateSpec(s, id, data, now).outcome == BadRequest(InvalidStatus)
  {
  }

  /** After an update that supplies a valid status, `completed_at` is set iff the status is "completed",
      and it is the request's time when it is. */
  lemma UpdateStatusSetsCompletedAt(s: seq<Todo>, id: int, data: map<string, Json>, now: Timestamp)
    requires id in Ids(s) && "status" in data && IsValidStatus(data["status"])
    ensures var r := UpdateSpec(s, id, data, now);
      && r.outcome.Updated?
      && r.outcome.todo.status == Some(data["status"].s)
      && (r.outcome.todo.completedAt.Some? <==> data["status"].s == "completed")
      && (data["status"].s == "completed" ==> r.outcome.todo.completedAt == Some(now))
  {
  }

  /** An update changes only the first record with the id, and in it only the supplied keys
      (with `completed_at` following the status); id and creation time never change. */
  lemma UpdateTouchesOnlySuppliedFields(s: seq<Todo>, id: int, data: map<string, Json>, now: Timestamp, i: nat)
    requires i < |s| && s[i].id == id
    requires forall k :: 0 <= k < i ==> s[k].id != id
    requires !RejectsStatus(data)
    ensures var r := UpdateSpec(s, id, data, now);
      && r.saved && |r.todos| == |s|
      && (forall k :: 0 <= k < |s| && k != i ==> r.todos[k] == s[k])
      && r.outcome == Updated(r.todos[i])
      && r.todos[i].id == s[i].id && r.todos[i].createdAt == s[i].createdAt
      && r.todos[i].task == (if "task" in data then data["task"] else s[i].task)
      && r.todos[i].priority == (if "priority" in data then data["priority"] else s[i].priority)
      && ("status" !in data ==> r.todos[i].status == s[i].status && r.todos[i].completedAt == s[i].completedAt)
  {
    IndexOfIsFirst(Ids(s), id, i);
  }

  /** An unknown id gives 404 and leaves the list alone, for update and delete alike. */
  lemma UnknownIdNotFound(s: seq<Todo>, id: int, data: map<string, Json>, now: Timestamp)
    requires id !in Ids(s)
    ensures UpdateSpec(s, id, data, now) == Step(s, NotFound(TodoNotFound), false)
    ensures DeleteSpec(s, id) == Step(s, NotFound(TodoNotFound), false)
  {
  }

  /** Delete removes the first record with the id and keeps every other record, ids included. */
  lemma DeleteKeepsOtherIds(s: seq<Todo>, id: int, i: nat)
    requires i < |s| && s[i].id == id
    requires forall k :: 0 <= k < i ==> s[k].id != id
    ensures var r := DeleteSpec(s, id);
      && r.outcome == Deleted(s[i])
      && r.todos == s[..i] + s[i + 1..]
  {
    IndexOfIsFirst(Ids(s), id, i);
  }

  /** Clear keeps, in order, exactly the records that are not completed (a missing status counts
      as pending), and reports how many it removed. */
  lemma ClearKeepsOpenRecords(s: seq<Todo>)
    ensures var r := ClearSpec(s);
      && r.todos == OpenTodos(s)
      && (forall t :: t in r.todos <==> t in s && t.status != Some("completed"))
      && r.outcome == Cleared(|s| - |r.todos|)
  {
  }

  // ---------------------------------------------------------------------
  // The stored list and the handlers that load, change and save it

  /** The JSON file holding the list. */
  class TodoApiFile {
    var todos: seq<Todo>
    ghost var saves: nat

    constructor (stored: seq<Todo>)
      ensures todos == stored && saves == 0
    {
      todos := stored;
      saves := 0;
    }

    /** POST /api/todos */
    method AddTodo(data: Option<map<string, Json>>, now: Timestamp) returns (response: Response)
      modifies this
      ensures var r := AddSpec(old(todos), data, now);
        && todos == r.todos && response == r.outcome
        && saves == old(saves) + (if r.saved then 1 else 0)
    {
      if data.None? || data.value == map[] || "task" !in data.value || !Truthy(data.value["task"]) {
        return BadRequest(TaskRequired);
      }
      var body := data.value;
      var list := todos;
      var priority := if "priority" in body then body["priority"] else JStr("medium");
      var todo := Todo(NextId(list), body["task"], priority, Some("pending"), now, None);
      list := list + [todo];
      todos := list;
      saves := saves + 1;
      return Created(todo);
    }

    /** PUT /api/todos/<id> */
    method UpdateTodo(id: int, data: map<string, Json>, now: Timestamp) returns (response: Response)
      modifies this
      ensures var r := UpdateSpec(old(todos), id, data, now);
        && todos == r.todos && response == r.outcome
        && saves == old(saves) + (if r.saved then 1 else 0)
    {
      var list := todos;
      var i := 0;
      while i < |list|
        invariant 0 <= i <= |list|
        invariant list == todos == old(todos) && saves == old(saves)
        invariant forall k :: 0 <= k < i ==> list[k].id != id
      {
        if list[i].id == id {
          IndexOfIsFirst(Ids(list), id, i);
          var todo := list[i];
          if "status" in data {
            if !(data["status"].JStr? && data["status"].s in ValidStatuses) {
              return BadRequest(InvalidStatus);
            }
            var status := data["status"].s;
            todo := todo.(status := Some(status));
            if status == "completed" {
              todo := todo.(completedAt := Some(now));
            } else {
              todo := todo.(completedAt := None);
            }
          }
          if "task" in data {
            todo := todo.(task := data["task"]);
          }
          if "priority" in data {
            todo := todo.(priority := data["priority"]);
          }
          list := list[i := todo];
          todos := list;
          saves := saves + 1;
          return Updated(todo);
        }
        i := i + 1;
      }
      assert id !in Ids(list);
      return NotFound(TodoNotFound);
    }

    /** DELETE /api/todos/<id> */
    method DeleteTodo(id: int) returns (response: Response)
      modifies this
      ensures var r := DeleteSpec(old(todos), id);
        && todos == r.todos && response == r.outcome
        && saves == old(saves) + (if r.saved then 1 else 0)
    {
      var list := todos;
      var i := 0;
      while i < |list|
        invariant 0 <= i <= |list|
        invariant list == todos == old(todos) && saves == old(saves)
        invariant forall k :: 0 <= k < i ==> list[k].id != id
      {
        if list[i].id == id {
          IndexOfIsFirst(Ids(list), id, i);
          var removed := list[i];
          list := list[..i] + list[i + 1..];
          todos := list;
          saves := saves + 1;
          return Deleted(removed);
        }
        i := i + 1;
      }
      assert id !in Ids(list);
      return NotFound(TodoNotFound);
    }

    /** DELETE /api/todos/clear-completed */
    method ClearCompleted() returns (response: Response)
      modifies this
      ensures var r := ClearSpec(old(todos));
        && todos == r.todos && response == r.outcome
        && saves == old(saves) + 1
    {
      var list := todos;
      var open := OpenTodos(list);
      var removedCount := |list| - |open|;
      todos := open;
      saves := saves + 1;
      return Cleared(removedCount);
    }
  }
}
