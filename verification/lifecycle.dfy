/**
 Properties that span components: the form and the table are the only
 producers of `updateTodo` inputs, so together with the list controller they
 fix the Pending <-> Completed lifecycle of a todo; and the client's calls
 meet the resource endpoint, whose answers the client does not reconcile.
 */
module Lifecycle {

  import opened TodoTypes
  import opened Controller
  import Numerals
  import RecordStore
  import TodoRoute
  import TodoTable
  import TodoForm

  /** The first position carrying `todos[i]`'s id is `i` itself. */
  predicate FirstWithItsId(todos: seq<Todo>, i: int) {
    0 <= i < |todos| && forall j :: 0 <= j < i ==> todos[j].id != todos[i].id
  }

  /** Pressing a row's completion button flips that row's flag and changes nothing else. */
  lemma ToggleFlipsOnlyCompletion(todos: seq<Todo>, k: int, putOk: bool)
    requires FirstWithItsId(todos, k)
    ensures TodoTable.PressToggle(todos, k, putOk).todos == todos[k := todos[k].(isDone := !todos[k].isDone)]
  {
    var t := TodoTable.Toggle(todos[k]);
    assert t == todos[k].(isDone := !todos[k].isDone);
    UpdateReplacesFirstMatch(todos[k := t], t, putOk, k);
  }

  /**
   Completing and then reopening a row (or the reverse) restores the list,
   whether or not either `putTodo` succeeds: the list changes before the
   call is awaited.
   */
  lemma ToggleTwiceRestoresList(todos: seq<Todo>, k: int, firstOk: bool, secondOk: bool)
    requires FirstWithItsId(todos, k)
    ensures
      var once := TodoTable.PressToggle(todos, k, firstOk).todos;
      TodoTable.PressToggle(once, k, secondOk).todos == todos
  {
    ToggleFlipsOnlyCompletion(todos, k, firstOk);
    var once := TodoTable.PressToggle(todos, k, firstOk).todos;
    assert FirstWithItsId(once, k);
    ToggleFlipsOnlyCompletion(once, k, secondOk);
    TodoTable.ToggleTwice(todos[k]);
  }

  /**
   When an earlier row `i` carries the same id as row `k`, pressing row
   `k`'s button flips row `k` in place and also overwrites row `i` with that
   flipped copy: the record that was at `i` is lost from the list.
   */
  lemma DuplicateIdMisdirectsToggle(todos: seq<Todo>, i: int, k: int, putOk: bool)
    requires 0 <= i < k < |todos|
    requires todos[i].id == todos[k].id
    requires forall j :: 0 <= j < i ==> todos[j].id != todos[k].id
    ensures
      var t := TodoTable.Toggle(todos[k]);
      TodoTable.PressToggle(todos, k, putOk).todos == todos[i := t][k := t]
  {
    var t := TodoTable.Toggle(todos[k]);
    UpdateReplacesFirstMatch(todos[k := t], t, putOk, i);
  }

  /**
   Editing never changes a todo's id or completion flag: the record at its
   position takes the form's title, priority and due date, and every other
   position is untouched.
   */
  lemma EditKeepsIdAndCompletion(todos: seq<Todo>, i: int, v: TodoForm.Values, putOk: bool)
    requires FirstWithItsId(todos, i)
    requires TodoForm.Complete(v)
    ensures
      var r := TodoForm.OnFinish(todos, Some(todos[i]), v, putOk);
      && r.Some?
      && |r.value.todos| == |todos|
      && r.value.todos[i] == Todo(todos[i].id, v.title.value, v.priority.value, v.dueDate.value, todos[i].isDone)
      && (forall j :: 0 <= j < |todos| && j != i ==> r.value.todos[j] == todos[j])
  {
    var s := TodoForm.Submit(Some(todos[i]), v);
    UpdateReplacesFirstMatch(todos, s.todo, putOk, i);
  }

  /**
   When an earlier row `i` carries the same id as the edited row `k`, the
   edit lands on row `i`, and row `k` keeps its old fields.
   */
  lemma DuplicateIdMisdirectsEdit(todos: seq<Todo>, i: int, k: int, v: TodoForm.Values, putOk: bool)
    requires 0 <= i < k < |todos|
    requires todos[i].id == todos[k].id
    requires forall j :: 0 <= j < i ==> todos[j].id != todos[k].id
    requires TodoForm.Complete(v)
    ensures
      var r := TodoForm.OnFinish(todos, Some(todos[k]), v, putOk);
      var e := Todo(todos[k].id, v.title.value, v.priority.value, v.dueDate.value, todos[k].isDone);
      r.Some? && r.value.todos == todos[i := e]
  {
  }

  /** A created todo is appended open, under the provisional id one past the old length. */
  lemma CreateAppendsOpenTodo(todos: seq<Todo>, v: TodoForm.Values, pushOk: bool)
    requires TodoForm.Complete(v)
    ensures
      var r := TodoForm.OnFinish(todos, None, v, pushOk);
      && r.Some?
      && r.value.todos[..|todos|] == todos
      && !r.value.todos[|todos|].isDone
      && r.value.todos[|todos|].id == Numerals.NatToString(|todos| + 1)
      && Numerals.ParseDecimal(r.value.todos[|todos|].id) == Some(|todos| + 1)
  {
  }

  /** Every record's id is the decimal numeral of its one-based position. */
  predicate Numbered(todos: seq<Todo>) {
    forall j :: 0 <= j < |todos| ==> todos[j].id == Numerals.NatToString(j + 1)
  }

  /** Adding records without ids to a numbered list keeps it numbered. */
  lemma AddKeepsNumbering(todos: seq<Todo>, d: Draft, pushOk: bool)
    requires Numbered(todos)
    requires !Truthy(d.id)
    ensures Numbered(AddTodo(todos, d, pushOk).todos)
  {
    var r := AddTodo(todos, d, pushOk).todos;
    forall j | 0 <= j < |r|
      ensures r[j].id == Numerals.NatToString(j + 1)
    {
      if j < |todos| {
        assert r[j] == r[..|todos|][j];
      }
    }
  }

  /** As long as nothing is deleted, provisional ids do not repeat. */
  lemma NumberedIdsDistinct(todos: seq<Todo>)
    requires Numbered(todos)
    ensures forall i, j :: 0 <= i < j < |todos| ==> todos[i].id != todos[j].id
  {
    forall i, j | 0 <= i < j < |todos|
      ensures todos[i].id != todos[j].id
    {
      Numerals.NatToStringInjective(i + 1, j + 1);
    }
  }

  /**
   The provisional id depends only on the length: add two todos, delete the
   first, add a third, and two records carry the id "2".
   */
  lemma ProvisionalIdCollision(title: string, p: Priority, due: Date)
    ensures
      var d := Draft(None, title, p, due, None);
      var s1 := AddTodo([], d, true).todos;
      var s2 := AddTodo(s1, d, true).todos;
      var s3 := DeleteTodo(s2, s2[0]).todos;
      var s4 := AddTodo(s3, d, true).todos;
      |s4| == 2 && s4[0].id == "2" && s4[1].id == "2"
  {
    var d := Draft(None, title, p, due, None);
    var s1 := AddTodo([], d, true).todos;
    assert s1[0].id == Numerals.NatToString(1) == "1";
    var s2 := AddTodo(s1, d, true).todos;
    assert s2[1].id == Numerals.NatToString(2) == "2";
    DeleteRemovesFirstMatch(s2, s2[0], 0);
    var s3 := DeleteTodo(s2, s2[0]).todos;
    assert s3 == [s2[1]];
  }

  /** The list loaded at start-up from a successful GET holds exactly the stored records. */
  lemma InitialLoadMirrorsStore(todos: seq<Todo>, s: RecordStore.Store, rows: seq<Todo>, ks: seq<string>)
    requires RecordStore.ListsUnder(rows, s, ks)
    ensures |Load(todos, Some(rows))| == |s|
    ensures forall t :: t in Load(todos, Some(rows)) <==> t in s.Values
  {
    RecordStore.ListedValues(rows, s, ks);
  }

  /** The JSON body the gateway sends for a whole record. */
  function BodyOf(t: Todo): TodoRoute.Body {
    TodoRoute.Body(Some(t.id), Some(t.title), Some(t.priority), Some(t.dueDate), Some(t.isDone))
  }

  /**
   The record `addTodo` pushes is stored under the store's id, not the
   provisional one, and the client list is never told: the two disagree
   whenever the store picks another id.
   */
  lemma PushedTodoStoredUnderStoreId(todos: seq<Todo>, d: Draft, s: RecordStore.Store, newId: string)
    requires newId !in s
    ensures
      var t := AddTodo(todos, d, true).todos[|todos|];
      var h := TodoRoute.Post(Some(BodyOf(t)), s, newId, false);
      && h.response.Json?
      && h.store[newId] == t.(id := newId, isDone := false)
      && (t.id != newId && t.id !in s ==> t.id !in h.store)
  {
  }

  /**
   Deleting a todo the store does not know (a provisional id, say) still
   reports success in the client, while the endpoint answers 400 and keeps
   the store as it was.
   */
  lemma UnsyncedDeleteReportsSuccess(todos: seq<Todo>, t: Todo, s: RecordStore.Store, fault: bool)
    requires HasId(todos, t.id)
    requires t.id !in s
    ensures DeleteTodo(todos, t).reply == Resolved(true)
    ensures DeleteTodo(todos, t).call == Some(DropTodo(t))
    ensures TodoRoute.Delete(Some(t.id), s, fault).response == TodoRoute.BadRequest
    ensures TodoRoute.Delete(Some(t.id), s, fault).store == s
  {
  }

  /**
   Create "Buy milk", complete it, delete it: the store assigns the id, the
   new record is open, completion flips only the flag, and the delete empties
   the store again.
   */
  lemma BuyMilkScenario(due: Date)
    ensures
      var created := TodoRoute.Post(Some(TodoRoute.Body(None, Some("Buy milk"), Some(Low), Some(due), None)), map[], "1", false);
      var row := created.response.payload.todo;
      var completed := TodoRoute.Put(Some(BodyOf(TodoTable.Toggle(row))), created.store, false);
      var deleted := TodoRoute.Delete(Some("1"), completed.store, false);
      && row == Todo("1", "Buy milk", Low, due, false)
      && completed.store == map["1" := row.(isDone := true)]
      && deleted.response == TodoRoute.Json(200, TodoRoute.Succeeded)
      && deleted.store == map[]
  {
  }
}
