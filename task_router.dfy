/** The four procedures of the task router over the `tasks` table, each run
    on behalf of an authenticated caller. */
module TaskRouter {
  import opened Tasks

  datatype Priority = Low | Medium | High

  function PriorityName(p: Priority): string {
    match p
    case Low => "low"
    case Medium => "medium"
    case High => "high"
  }

  /** `z.enum(["low", "medium", "high"])`: exact, case-sensitive names. */
  function ParsePriority(s: string): (r: Option<Priority>)
    ensures r.Some? <==> s in {"low", "medium", "high"}
    ensures r.Some? ==> PriorityName(r.value) == s
  {
    if s == "low" then Some(Low)
    else if s == "medium" then Some(Medium)
    else if s == "high" then Some(High)
    else None
  }

  /** `z.enum(["completed", "pending"])` */
  function ParseStatus(s: string): (r: Option<TodoStatus>)
    ensures r.Some? <==> s in {"completed", "pending"}
    ensures r.Some? ==> StatusName(r.value) == s
  {
    if s == "completed" then Some(Completed)
    else if s == "pending" then Some(Pending)
    else None
  }

  lemma ParseNamesRoundTrip(p: Priority, st: TodoStatus)
    ensures ParsePriority(PriorityName(p)) == Some(p)
    ensures ParseStatus(StatusName(st)) == Some(st)
  {
  }

  const MinTitleLength: nat := 3

  /** The fields whose check failed, in the order the schema lists them. */
  datatype Issue = TitleTooShort | InvalidPriority | InvalidTodoStatus

  datatype Error =
    | ValidationError(issues: seq<Issue>)
    | NotFound(message: string)

  const DeleteNotFoundMessage: string := "Task not found or you're not authorized to delete it."
  const UpdateNotFoundMessage: string := "Task not found or unauthorized to update."

  /** The raw input of `createTask`; `None` is an omitted field. */
  datatype CreateInput = CreateInput(
    title: string,
    description: Option<string>,
    dueDate: Option<string>,
    priority: Option<string>,
    todoStatus: Option<string>,
    tags: Option<seq<string>>)

  /** The input after the schema accepted it, with the status default applied. */
  datatype ValidCreate = ValidCreate(
    title: string,
    description: Option<string>,
    dueDate: Option<string>,
    priority: Option<Priority>,
    todoStatus: TodoStatus,
    tags: Option<seq<string>>)

  function CreateIssues(input: CreateInput): (r: seq<Issue>)
    ensures TitleTooShort in r <==> |input.title| < MinTitleLength
    ensures InvalidPriority in r <==> input.priority.Some? && ParsePriority(input.priority.value).None?
    ensures InvalidTodoStatus in r <==> input.todoStatus.Some? && ParseStatus(input.todoStatus.value).None?
  {
    (if |input.title| < MinTitleLength then [TitleTooShort] else [])
    + (if input.priority.Some? && ParsePriority(input.priority.value).None? then [InvalidPriority] else [])
    + (if input.todoStatus.Some? && ParseStatus(input.todoStatus.value).None? then [InvalidTodoStatus] else [])
  }

  /** The `createTask` input schema. */
  function ValidateCreate(input: CreateInput): (r: Result<ValidCreate, Error>)
    ensures r.Ok? <==> |input.title| >= MinTitleLength
                       && (input.priority.None? || input.priority.value in {"low", "medium", "high"})
                       && (input.todoStatus.None? || input.todoStatus.value in {"completed", "pending"})
    ensures r.Err? ==> r.error.ValidationError? && r.error.issues != []
    ensures r.Ok? ==> r.value.title == input.title && r.value.description == input.description
                      && r.value.dueDate == input.dueDate && r.value.tags == input.tags
    ensures r.Ok? ==> (input.priority.None? <==> r.value.priority.None?)
    ensures r.Ok? && input.priority.Some? ==> PriorityName(r.value.priority.value) == input.priority.value
    ensures r.Ok? && input.todoStatus.None? ==> r.value.todoStatus == Pending
    ensures r.Ok? && input.todoStatus.Some? ==> StatusName(r.value.todoStatus) == input.todoStatus.value
  {
    var issues := CreateIssues(input);
    if issues != [] then Err(ValidationError(issues))
    else
      Ok(ValidCreate(
        input.title,
        input.description,
        input.dueDate,
        if input.priority.Some? then ParsePriority(input.priority.value) else None,
        if input.todoStatus.Some? then ParseStatus(input.todoStatus.value).value else Pending,
        input.tags))
  }

  /** The values `createTask` inserts: an empty due date string is `null`,
      absent tags are `[]`, the owner is the caller. Date parsing is the
      parameter `parseDate`. */
  function NewRow(id: int, caller: UserId, v: ValidCreate, parseDate: string -> Timestamp): (r: Task)
    ensures r.id == id && r.userId == caller && r.title == v.title && r.description == v.description
    ensures r.dueDate.None? <==> (v.dueDate.None? || v.dueDate.value == "")
    ensures r.tags == (if v.tags.Some? then v.tags.value else [])
    ensures r.todoStatus == Some(StatusName(v.todoStatus))
    ensures r.priority.None? <==> v.priority.None?
    ensures v.priority.Some? ==> r.priority == Some(PriorityName(v.priority.value))
    ensures v.dueDate.Some? && v.dueDate.value != "" ==> r.dueDate == Some(parseDate(v.dueDate.value))
  {
    Task(
      id,
      caller,
      v.title,
      v.description,
      if ToBoolean(OptionalString(v.dueDate)) then Some(parseDate(v.dueDate.value)) else None,
      if v.priority.Some? then Some(PriorityName(v.priority.value)) else None,
      Some(StatusName(v.todoStatus)),
      if v.tags.Some? then v.tags.value else [])
  }

  /** `where id = id and userId = caller` */
  function OwnedWithId(rows: seq<Task>, id: int, caller: UserId): (r: seq<Task>)
    ensures forall t :: t in r <==> t in rows && t.id == id && t.userId == caller
  {
    if rows == [] then []
    else (if rows[0].id == id && rows[0].userId == caller then [rows[0]] else []) + OwnedWithId(rows[1..], id, caller)
  }

  /** The first row with that id: `returning()[0]`, `undefined` when none. */
  function FirstWithId(rows: seq<Task>, id: int): (r: Option<Task>)
    ensures r.None? <==> forall t :: t in rows ==> t.id != id
    ensures r.Some? ==> r.value in rows && r.value.id == id
    ensures r.Some? ==> exists i :: 0 <= i < |rows| && rows[i] == r.value && forall j :: 0 <= j < i ==> rows[j].id != id
  {
    if rows == [] then None
    else if rows[0].id == id then Some(rows[0])
    else FirstWithId(rows[1..], id)
  }

  /** A query result as a JavaScript value: an array, hence an object. */
  function ArrayValue(rows: seq<Task>): JsValue {
    Object
  }

  /** The guard of `updateTaskTodoStatus` tests the selected array itself,
      and every array is truthy: it does not fire even when the caller owns
      no row with that id, where the guard of `deleteTask` does. */
  lemma UpdateGuardNeverFires(rows: seq<Task>, id: int, caller: UserId)
    ensures ToBoolean(ArrayValue(OwnedWithId(rows, id, caller)))
    ensures |OwnedWithId(rows, id, caller)| == 0 <==> forall t :: t in rows ==> !(t.id == id && t.userId == caller)
  {
    var sel := OwnedWithId(rows, id, caller);
    if sel != [] { assert sel[0] in sel; }
  }

  datatype CreateResponse = CreateResponse(success: bool, message: string, task: Task)
  datatype UpdateInput = UpdateInput(id: int, todoStatus: string)
  datatype UpdateResponse = UpdateResponse(success: bool, message: string, task: Option<Task>)
  datatype DeleteResponse = DeleteResponse(success: bool, message: string)

  /** The table's ids are distinct and below the next id the table hands out. */
  ghost predicate IdsFreshBelow(rows: seq<Task>, nextId: int) {
    && (forall i, j :: 0 <= i < j < |rows| ==> rows[i].id != rows[j].id)
    && (forall i :: 0 <= i < |rows| ==> rows[i].id < nextId)
  }

  /** Deleting rows keeps the ids distinct and below the counter. */
  lemma WithoutIdKeepsIds(rows: seq<Task>, id: int, nextId: int)
    requires IdsFreshBelow(rows, nextId)
    ensures IdsFreshBelow(WithoutId(rows, id), nextId)
  {
    var r := WithoutId(rows, id);
    forall i | 0 <= i < |r| ensures r[i].id < nextId {
      assert r[i] in rows;
    }
    forall i, j | 0 <= i < j < |r| ensures r[i].id != r[j].id {
      SubsequenceIndices(r, rows, i, j);
    }
  }

  /** Two positions of a subsequence come from two increasing positions of the whole. */
  lemma {:induction false} SubsequenceIndices(r: seq<Task>, s: seq<Task>, i: int, j: int)
    requires IsSubsequence(r, s) && 0 <= i < j < |r|
    ensures exists i', j' :: 0 <= i' < j' < |s| && s[i'] == r[i] && s[j'] == r[j]
    decreases |s|
  {
    if r[0] == s[0] {
      if i == 0 {
        assert r[j] == r[1..][j - 1];
        SubsequenceHas(r[1..], s[1..], j - 1);
        var m :| 0 <= m < |s[1..]| && s[1..][m] == r[j];
        assert s[0] == r[0] && s[m + 1] == r[j];
      } else {
        SubsequenceIndices(r[1..], s[1..], i - 1, j - 1);
        var i', j' :| 0 <= i' < j' < |s[1..]| && s[1..][i'] == r[1..][i - 1] && s[1..][j'] == r[1..][j - 1];
        assert s[i' + 1] == r[i] && s[j' + 1] == r[j];
      }
    } else {
      SubsequenceIndices(r, s[1..], i, j);
      var i', j' :| 0 <= i' < j' < |s[1..]| && s[1..][i'] == r[i] && s[1..][j'] == r[j];
      assert s[i' + 1] == r[i] && s[j' + 1] == r[j];
    }
  }

  lemma {:induction false} SubsequenceHas(r: seq<Task>, s: seq<Task>, i: int)
    requires IsSubsequence(r, s) && 0 <= i < |r|
    ensures exists m :: 0 <= m < |s| && s[m] == r[i]
    decreases |s|
  {
    if r[0] == s[0] {
      if i == 0 {
        assert s[0] == r[0];
      } else {
        SubsequenceHas(r[1..], s[1..], i - 1);
        var m :| 0 <= m < |s[1..]| && s[1..][m] == r[1..][i - 1];
        assert s[m + 1] == r[i];
      }
    } else {
      SubsequenceHas(r, s[1..], i);
      var m :| 0 <= m < |s[1..]| && s[1..][m] == r[i];
      assert s[m + 1] == r[i];
    }
  }

  /** The `tasks` table and the id sequence it allocates from. */
  class TaskStore {
    var rows: seq<Task>
    var nextId: int

    ghost predicate Valid()
      reads this
    {
      IdsFreshBelow(rows, nextId)
    }

    /** An empty table whose first id is 1, as a serial key column starts. */
    constructor ()
      ensures Valid() && rows == [] && nextId == 1
    {
      rows := [];
      nextId := 1;
    }

    /** `createTask`: a rejected input leaves the table alone; an accepted one
        adds exactly one row, with a fresh id, owned by the caller. */
    method CreateTask(caller: UserId, input: CreateInput, parseDate: string -> Timestamp)
      returns (res: Result<CreateResponse, Error>)
      requires Valid()
      modifies this
      ensures Valid()
      ensures ValidateCreate(input).Err? ==>
        res == Err(ValidateCreate(input).error) && rows == old(rows) && nextId == old(nextId)
      ensures ValidateCreate(input).Ok? ==>
        && res.Ok? && res.value.success && res.value.message == "Task created successfully"
        && res.value.task == NewRow(old(nextId), caller, ValidateCreate(input).value, parseDate)
        && rows == old(rows) + [res.value.task]
        && (forall t :: t in old(rows) ==> t.id != res.value.task.id)
    {
      var v := ValidateCreate(input);
      if v.Err? {
        return Err(v.error);
      }
      var row := NewRow(nextId, caller, v.value, parseDate);
      rows := rows + [row];
      nextId := nextId + 1;
      res := Ok(CreateResponse(true, "Task created successfully", row));
    }

    /** `getTasks`: the caller's rows and no others; the table is not changed. */
    method GetTasks(caller: UserId) returns (selfTasks: seq<Task>)
      ensures forall t :: t in selfTasks <==> t in rows && t.userId == caller
      ensures forall t :: multiset(selfTasks)[t] == if t.userId == caller then multiset(rows)[t] else 0
      ensures IsSubsequence(selfTasks, rows)
    {
      selfTasks := OwnedBy(rows, caller);
    }

    /** `updateTaskTodoStatus` as written: the ownership check cannot fail, and
        the update reaches every row with the id, whoever owns it. */
    method UpdateTaskTodoStatus(caller: UserId, input: UpdateInput)
      returns (res: Result<UpdateResponse, Error>)
      requires Valid()
      modifies this
      ensures Valid() && nextId == old(nextId)
      ensures ParseStatus(input.todoStatus).None? ==>
        res == Err(ValidationError([InvalidTodoStatus])) && rows == old(rows)
      ensures ParseStatus(input.todoStatus).Some? ==>
        && res.Ok? && res.value.success
        && res.value.message == "Task stsatus updated successfully"
        && rows == WithStatus(old(rows), input.id, ParseStatus(input.todoStatus).value)
        && res.value.task == FirstWithId(rows, input.id)
      ensures ParseStatus(input.todoStatus).Some? && (forall t :: t in old(rows) ==> t.id != input.id) ==>
        rows == old(rows) && res.Ok? && res.value.task.None?
    {
      var status := ParseStatus(input.todoStatus);
      if status.None? {
        return Err(ValidationError([InvalidTodoStatus]));
      }
      var taskInQuestion := OwnedWithId(rows, input.id, caller);
      if !ToBoolean(ArrayValue(taskInQuestion)) {
        return Err(NotFound(UpdateNotFoundMessage));
      }
      rows := WithStatus(rows, input.id, status.value);
      res := Ok(UpdateResponse(true, "Task stsatus updated successfully", FirstWithId(rows, input.id)));
    }

    /** `deleteTask`: without a row of that id owned by the caller it fails and
        the table is unchanged; otherwise the rows with that id are removed. */
    method DeleteTask(caller: UserId, id: int) returns (res: Result<DeleteResponse, Error>)
      requires Valid()
      modifies this
      ensures Valid() && nextId == old(nextId)
      ensures (forall t :: t in old(rows) ==> !(t.id == id && t.userId == caller)) ==>
        res == Err(NotFound(DeleteNotFoundMessage)) && rows == old(rows)
      ensures (exists t :: t in old(rows) && t.id == id && t.userId == caller) ==>
        res == Ok(DeleteResponse(true, "Task deleted successfully")) && rows == WithoutId(old(rows), id)
    {
      var taskToDelete := OwnedWithId(rows, id, caller);
      if |taskToDelete| == 0 {
        return Err(NotFound(DeleteNotFoundMessage));
      }
      assert taskToDelete[0] in taskToDelete;
      WithoutIdKeepsIds(rows, id, nextId);
      rows := WithoutId(rows, id);
      res := Ok(DeleteResponse(true, "Task deleted successfully"));
    }
  }

  /** Creating "Buy milk" with every optional field omitted, then listing:
      one pending task with no priority. */
  method CreateThenList(parseDate: string -> Timestamp) returns (listed: seq<Task>)
    ensures |listed| == 1
    ensures listed[0].title == "Buy milk" && listed[0].todoStatus == Some("pending")
    ensures listed[0].priority.None? && listed[0].dueDate.None? && listed[0].tags == []
  {
    var store := new TaskStore();
    var input := CreateInput("Buy milk", None, None, None, None, None);
    assert ValidateCreate(input).Ok?;
    var created := store.CreateTask("alice", input, parseDate);
    listed := store.GetTasks("alice");
    assert store.rows == [created.value.task];
    assert created.value.task in listed;
  }

  /** Updating the status of an id nobody has: success, no task, nothing changed. */
  method UpdateUnknownId(parseDate: string -> Timestamp) returns (res: Result<UpdateResponse, Error>)
    ensures res.Ok? && res.value.success && res.value.task.None?
  {
    var store := new TaskStore();
    var input := CreateInput("Buy milk", None, None, None, None, None);
    assert ValidateCreate(input).Ok?;
    var _ := store.CreateTask("alice", input, parseDate);
    assert forall t :: t in store.rows ==> t.id == 1;
    res := store.UpdateTaskTodoStatus("alice", UpdateInput(5, "completed"));
  }
}
