/** The task record shared by the server router and the client list, the few
    JavaScript value rules the code relies on, and the sequence edits
    (status change, removal by id, owner filter) that both sides perform. */
module Tasks {

  datatype Option<T> = None | Some(value: T)

  datatype Result<T, E> = Ok(value: T) | Err(error: E)

  type UserId = string

  /** Largest magnitude of an ECMAScript time value in milliseconds
      (100 000 000 days either side of the epoch). */
  const MaxTimeValue: int := 8_640_000_000_000_000

  /** `new Date(x).getTime()` of a valid date. */
  type Timestamp = t: int | -MaxTimeValue <= t <= MaxTimeValue

  datatype TodoStatus = Pending | Completed

  function StatusName(s: TodoStatus): string {
    match s
    case Pending => "pending"
    case Completed => "completed"
  }

  /** A row of the `tasks` table, as the list query returns it. */
  datatype Task = Task(
    id: int,
    userId: UserId,
    title: string,
    description: Option<string>,
    dueDate: Option<Timestamp>,
    priority: Option<string>,
    todoStatus: Option<string>,
    tags: seq<string>)

  /** The JavaScript values whose truthiness the code tests. Arrays, dates and
      records are all objects. */
  datatype JsValue = Undefined | Null | Boolean(b: bool) | Number(n: int) | Str(s: string) | Object

  /** ToBoolean (section 7.1.2 of ECMA-262): undefined, null, false, 0 and the
      empty string are falsy, every object is truthy. NaN is not modelled. */
  function ToBoolean(v: JsValue): (r: bool)
    ensures r <==> !(v.Undefined? || v.Null? || v == Boolean(false) || v == Number(0) || v == Str(""))
  {
    match v
    case Undefined => false
    case Null => false
    case Boolean(b) => b
    case Number(n) => n != 0
    case Str(s) => s != ""
    case Object => true
  }

  /** An optional string as JavaScript sees it: absent is undefined. */
  function OptionalString(o: Option<string>): JsValue {
    match o
    case None => Undefined
    case Some(s) => Str(s)
  }

  /** `r` keeps some of the elements of `s`, in their order in `s`. */
  ghost predicate IsSubsequence(r: seq<Task>, s: seq<Task>)
    decreases |s|
  {
    if r == [] then true
    else if s == [] then false
    else if r[0] == s[0] then IsSubsequence(r[1..], s[1..])
    else IsSubsequence(r, s[1..])
  }

  /** `tasks.map(t => t.id === id ? { ...t, todoStatus } : t)`; the server's
      `update ... set todoStatus where id = id` performs the same edit on the table. */
  function WithStatus(ts: seq<Task>, id: int, status: TodoStatus): (r: seq<Task>)
    ensures |r| == |ts|
    ensures forall i :: 0 <= i < |ts| ==> r[i].id == ts[i].id && r[i].userId == ts[i].userId
    ensures forall i :: 0 <= i < |ts| && ts[i].id == id ==> r[i] == ts[i].(todoStatus := Some(StatusName(status)))
    ensures forall i :: 0 <= i < |ts| && ts[i].id != id ==> r[i] == ts[i]
  {
    if ts == [] then []
    else
      var head := if ts[0].id == id then ts[0].(todoStatus := Some(StatusName(status))) else ts[0];
      [head] + WithStatus(ts[1..], id, status)
  }

  /** `tasks.filter(t => t.id !== id)`; the server's `delete where id = id`
      performs the same edit on the table. */
  function WithoutId(ts: seq<Task>, id: int): (r: seq<Task>)
    ensures forall t :: t in r <==> t in ts && t.id != id
    ensures forall t :: multiset(r)[t] == if t.id == id then 0 else multiset(ts)[t]
    ensures IsSubsequence(r, ts)
  {
    if ts == [] then []
    else if ts[0].id == id then
      var rest := WithoutId(ts[1..], id);
      assert ts == [ts[0]] + ts[1..];
      assert rest == [] || rest[0] != ts[0];
      rest
    else
      var rest := WithoutId(ts[1..], id);
      assert ts == [ts[0]] + ts[1..];
      assert ([ts[0]] + rest)[1..] == rest;
      [ts[0]] + rest
  }

  /** `where userId = caller`: the rows a caller owns, in table order. */
  function OwnedBy(ts: seq<Task>, caller: UserId): (r: seq<Task>)
    ensures forall t :: t in r <==> t in ts && t.userId == caller
    ensures forall t :: multiset(r)[t] == if t.userId == caller then multiset(ts)[t] else 0
    ensures IsSubsequence(r, ts)
  {
    if ts == [] then []
    else if ts[0].userId != caller then
      var rest := OwnedBy(ts[1..], caller);
      assert ts == [ts[0]] + ts[1..];
      assert rest == [] || rest[0] != ts[0];
      rest
    else
      var rest := OwnedBy(ts[1..], caller);
      assert ts == [ts[0]] + ts[1..];
      assert ([ts[0]] + rest)[1..] == rest;
      [ts[0]] + rest
  }
}
