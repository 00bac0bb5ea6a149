/**
 The resource endpoint `/api/todo`: one handler per HTTP verb. Each handler
 projects the request onto at most one store call, runs it, and maps the
 outcome to a response. `Handled` records the store call issued (if any), the
 response, and the store afterwards.
 */
module TodoRoute {

  import opened TodoTypes
  import opened RecordStore

  /** A parsed JSON request body; every field may be absent. */
  datatype Body = Body(
    id: Option<string>,
    title: Option<string>,
    priority: Option<Priority>,
    dueDate: Option<Date>,
    isDone: Option<bool>
  )

  /** The JSON a response carries. */
  datatype Payload =
    | Rows(todos: seq<Todo>)
    | Row(todo: Todo)
    | Succeeded          // `{ success: true }`
    | Failed(error: string)

  /** A JSON response with a status, or the bodiless error response of `NextResponse.error()`. */
  datatype Response = Json(status: int, payload: Payload) | NetworkError

  datatype Handled = Handled(call: Option<Call>, response: Response, store: Store)

  const InvalidRequest: string := "Invalid request"

  /** The 400 answer DELETE gives for every kind of failure. */
  const BadRequest: Response := Json(400, Failed(InvalidRequest))

  /** GET: the whole store, unfiltered; a store failure is a generic error. */
  method Get(s: Store, fault: bool) returns (h: Handled)
    ensures h.call == Some(FindMany) && h.store == s
    ensures fault ==> h.response == NetworkError
    ensures !fault ==> h.response.Json? && h.response.status == 200 && h.response.payload.Rows?
    ensures !fault ==> Lists(h.response.payload.todos, s)
  {
    if fault {
      return Handled(Some(FindMany), NetworkError, s);
    }
    var rows := ListRows(s);
    h := Handled(Some(FindMany), Json(200, Rows(rows)), s);
  }

  /**
   POST: only the title, priority and due date of the body reach the store;
   a malformed body or a store failure is a generic error.
   */
  function Post(body: Option<Body>, s: Store, newId: string, fault: bool): (h: Handled)
    ensures body.None? ==> h == Handled(None, NetworkError, s)
    ensures body.Some? ==> h.call == Some(Create(CreateData(body.value.title, body.value.priority, body.value.dueDate)))
    ensures h.response.NetworkError? ==> h.store == s
    ensures h.response.Json? <==>
      && body.Some? && !fault && newId !in s
      && body.value.title.Some? && body.value.priority.Some? && body.value.dueDate.Some?
    ensures h.response.Json? ==>
      && h.response.status == 200 && h.response.payload.Row?
      && var row := h.response.payload.todo;
      && row == Todo(newId, body.value.title.value, body.value.priority.value, body.value.dueDate.value, false)
      && h.store == s[newId := row]
  {
    match body
    case None => Handled(None, NetworkError, s)
    case Some(b) =>
      var call := Create(CreateData(b.title, b.priority, b.dueDate));
      match CreateRow(s, call.fields, newId, fault)
      case Done(row, after) => Handled(Some(call), Json(200, Row(row)), after)
      case Threw => Handled(Some(call), NetworkError, s)
  }

  /**
   PUT: the record named by `body.id` gets the body's title, priority, due
   date and completion flag; its id is not among the written columns. A
   malformed body, an unknown id or a store failure is a generic error.
   */
  function Put(body: Option<Body>, s: Store, fault: bool): (h: Handled)
    ensures body.None? ==> h == Handled(None, NetworkError, s)
    ensures body.Some? ==>
      var b := body.value;
      h.call == Some(Update(b.id, UpdateData(b.title, b.priority, b.dueDate, b.isDone)))
    ensures h.response.NetworkError? ==> h.store == s
    ensures h.response.Json? <==> body.Some? && !fault && body.value.id.Some? && body.value.id.value in s
    ensures h.response.Json? ==>
      && h.response.status == 200 && h.response.payload.Row?
      && var b := body.value;
      && var prev := s[b.id.value];
      && var row := h.response.payload.todo;
      && row.id == prev.id
      && row.title == Or(b.title, prev.title)
      && row.priority == Or(b.priority, prev.priority)
      && row.dueDate == Or(b.dueDate, prev.dueDate)
      && row.isDone == Or(b.isDone, prev.isDone)
      && h.store == s[b.id.value := row]
  {
    match body
    case None => Handled(None, NetworkError, s)
    case Some(b) =>
      var call := Update(b.id, UpdateData(b.title, b.priority, b.dueDate, b.isDone));
      match UpdateRow(s, call.key, call.changes, fault)
      case Done(row, after) => Handled(Some(call), Json(200, Row(row)), after)
      case Threw => Handled(Some(call), NetworkError, s)
  }

  /**
   DELETE: a missing or empty `id` query parameter is refused with 400
   before the store is consulted; a store failure, an unknown id included,
   is the same 400; success answers `{ success: true }`.
   */
  function Delete(idParam: Option<string>, s: Store, fault: bool): (h: Handled)
    ensures !Truthy(idParam) ==> h == Handled(None, BadRequest, s)
    ensures Truthy(idParam) ==> h.call == Some(RecordStore.Delete(idParam.value))
    ensures h.response.Json?
    ensures h.response == Json(200, Succeeded) <==> Truthy(idParam) && !fault && idParam.value in s
    ensures h.response != Json(200, Succeeded) ==> h.response == BadRequest && h.store == s
    ensures h.response == Json(200, Succeeded) ==> h.store == s - {idParam.value}
  {
    if !Truthy(idParam) then Handled(None, BadRequest, s)
    else
      var call := RecordStore.Delete(idParam.value);
      match DeleteRow(s, call.id, fault)
      case Done(_, after) => Handled(Some(call), Json(200, Succeeded), after)
      case Threw => Handled(Some(call), BadRequest, s)
  }

  /** A client-supplied id or completion flag has no influence on what POST does. */
  lemma PostIgnoresIdAndIsDone(b1: Body, b2: Body, s: Store, newId: string, fault: bool)
    requires b1.title == b2.title && b1.priority == b2.priority && b1.dueDate == b2.dueDate
    ensures Post(Some(b1), s, newId, fault) == Post(Some(b2), s, newId, fault)
  {
  }

  /** Repeating a PUT with the same body leaves the store as one PUT did. */
  lemma PutIdempotent(b: Body, s: Store, fault: bool)
    ensures Put(Some(b), Put(Some(b), s, fault).store, fault).store == Put(Some(b), s, fault).store
  {
    var once := Put(Some(b), s, fault);
    if once.response.Json? {
      var id := b.id.value;
      var twice := Put(Some(b), once.store, fault);
      assert id in once.store;
      assert twice.store == once.store[id := twice.response.payload.todo];
      assert twice.response.payload.todo == once.store[id];
    }
  }

  /** No handler moves a record away from its own id. */
  lemma HandlersKeepRecordsKeyed(s: Store, body: Option<Body>, idParam: Option<string>, newId: string, fault: bool)
    requires Keyed(s)
    ensures Keyed(Post(body, s, newId, fault).store)
    ensures Keyed(Put(body, s, fault).store)
    ensures Keyed(Delete(idParam, s, fault).store)
  {
  }

  /** After a successful DELETE the id is gone and every other record is untouched. */
  lemma DeleteRemovesOnlyThatRecord(id: string, s: Store, fault: bool)
    requires Delete(Some(id), s, fault).response == Json(200, Succeeded)
    ensures id !in Delete(Some(id), s, fault).store
    ensures forall k :: k in s && k != id ==> k in Delete(Some(id), s, fault).store && Delete(Some(id), s, fault).store[k] == s[k]
  {
  }

  /**
   A record POST creates shows up, open and under its new id, in every
   complete listing of the store afterwards, and no other listed record has
   that id.
   */
  lemma CreatedRowIsListed(b: Body, s: Store, newId: string, fault: bool, rows: seq<Todo>, ks: seq<string>)
    requires Keyed(s)
    requires Post(Some(b), s, newId, fault).response.Json?
    requires ListsUnder(rows, Post(Some(b), s, newId, fault).store, ks)
    ensures Post(Some(b), s, newId, fault).response.payload.todo in rows
    ensures exists i :: 0 <= i < |rows| && rows[i].id == newId && !rows[i].isDone
    ensures forall i, j :: 0 <= i < |rows| && 0 <= j < |rows| && rows[i].id == newId && rows[j].id == newId ==> i == j
  {
    var h := Post(Some(b), s, newId, fault);
    var row := h.response.payload.todo;
    assert h.store == s[newId := row] && row.id == newId;
    ListedRecord(rows, h.store, ks, newId);
    ListedIdsDistinct(rows, h.store, ks);
    var n :| 0 <= n < |rows| && rows[n] == row;
  }
}
