/**
 The client's list controller: the in-memory list of todos held by the home
 page, and the three mutations the form and the table invoke on it. Every
 mutation is applied to the list first; the server call it issues is reported
 in the step's `call`, and whether the awaited call threw is an input.
 */
module Controller {

  import opened TodoTypes
  import opened Sequences
  import Numerals

  /**
   A record handed to `addTodo`. When it comes from the form in create mode,
   its id and completion flag are absent.
   */
  datatype Draft = Draft(
    id: Option<string>,
    title: string,
    priority: Priority,
    dueDate: Date,
    isDone: Option<bool>
  )

  /** The gateway call a mutation issues towards the resource endpoint. */
  datatype Call = PushTodo(todo: Todo) | PutTodo(todo: Todo) | DropTodo(todo: Todo)

  /**
   How the mutation's promise settles: with its boolean flag, or rejected
   because an awaited gateway call threw.
   */
  datatype Reply = Resolved(flag: bool) | Rejected

  /** The list after a mutation, the call it issued, and how it settled. */
  datatype Step = Step(todos: seq<Todo>, call: Option<Call>, reply: Reply)

  predicate HasId(todos: seq<Todo>, id: string) {
    exists j :: 0 <= j < |todos| && todos[j].id == id
  }

  /** `todos.findIndex((t) => t.id === id)`. */
  function FindById(todos: seq<Todo>, id: string): (i: int)
    ensures -1 <= i < |todos|
    ensures i == -1 <==> !HasId(todos, id)
    ensures 0 <= i ==> todos[i].id == id && forall j :: 0 <= j < i ==> todos[j].id != id
  {
    FirstIndex(todos, (t: Todo) => t.id == id)
  }

  /** The id a record without one receives: one more than the list's length, in decimal. */
  function ProvisionalId(todos: seq<Todo>): (id: string)
    ensures id != ""
    ensures Numerals.ParseDecimal(id) == Some(|todos| + 1)
  {
    Numerals.ParseRendered(|todos| + 1);
    Numerals.NatToString(|todos| + 1)
  }

  /** The record `addTodo` appends: a missing id and a missing completion flag are filled in. */
  function Admit(todos: seq<Todo>, d: Draft): (t: Todo)
    ensures t.id != ""
    ensures Truthy(d.id) ==> t.id == d.id.value
    ensures !Truthy(d.id) ==> t.id == ProvisionalId(todos)
    ensures t.isDone <==> d.isDone == Some(true)
    ensures t.title == d.title && t.priority == d.priority && t.dueDate == d.dueDate
  {
    var id := if !Truthy(d.id) then ProvisionalId(todos) else d.id.value;
    var isDone := if d.isDone.None? || !d.isDone.value then false else d.isDone.value;
    Todo(id, d.title, d.priority, d.dueDate, isDone)
  }

  /** `addTodo`: appends the admitted record, then awaits `pushTodo` with it. */
  function AddTodo(todos: seq<Todo>, d: Draft, pushOk: bool): (r: Step)
    ensures |r.todos| == |todos| + 1
    ensures r.todos[..|todos|] == todos
    ensures r.todos[|todos|] == Admit(todos, d)
    ensures r.call == Some(PushTodo(r.todos[|todos|]))
    ensures pushOk ==> r.reply == Resolved(true)
    ensures !pushOk ==> r.reply == Rejected
  {
    var t := Admit(todos, d);
    Step(todos + [t], Some(PushTodo(t)), if pushOk then Resolved(true) else Rejected)
  }

  /**
   `updateTodo`: replaces the first record whose id matches, then awaits
   `putTodo`; without a match nothing happens and the flag is false.
   */
  function UpdateTodo(todos: seq<Todo>, t: Todo, putOk: bool): (r: Step)
    ensures !HasId(todos, t.id) ==> r == Step(todos, None, Resolved(false))
    ensures HasId(todos, t.id) ==> r.call == Some(PutTodo(t))
    ensures HasId(todos, t.id) ==> r.reply == (if putOk then Resolved(true) else Rejected)
    ensures |r.todos| == |todos|
    ensures HasId(todos, t.id) ==> t in r.todos
  {
    var i := FindById(todos, t.id);
    if i == -1 then Step(todos, None, Resolved(false))
    else
      assert todos[i := t][i] == t;
      Step(todos[i := t], Some(PutTodo(t)), if putOk then Resolved(true) else Rejected)
  }

  /**
   `deleteTodo`: removes the first record whose id matches and fires
   `dropTodo` without awaiting it, so the flag is true whatever the server
   answers; without a match nothing happens and the flag is false.
   */
  function DeleteTodo(todos: seq<Todo>, t: Todo): (r: Step)
    ensures !HasId(todos, t.id) ==> r == Step(todos, None, Resolved(false))
    ensures HasId(todos, t.id) ==> r.call == Some(DropTodo(t)) && r.reply == Resolved(true)
    ensures HasId(todos, t.id) ==> |r.todos| == |todos| - 1
  {
    var i := FindById(todos, t.id);
    if i == -1 then Step(todos, None, Resolved(false))
    else Step(RemoveAt(todos, i), Some(DropTodo(t)), Resolved(true))
  }

  /** The initial load: a list the server delivered replaces the current one. */
  function Load(todos: seq<Todo>, fetched: Option<seq<Todo>>): (r: seq<Todo>)
    ensures fetched.Some? ==> r == fetched.value
    ensures fetched.None? ==> r == todos
  {
    match fetched
    case Some(data) => data
    case None => todos
  }

  /** When `i` is the first position with `t`'s id, update writes `t` there and nowhere else. */
  lemma UpdateReplacesFirstMatch(todos: seq<Todo>, t: Todo, putOk: bool, i: int)
    requires 0 <= i < |todos| && todos[i].id == t.id
    requires forall j :: 0 <= j < i ==> todos[j].id != t.id
    ensures UpdateTodo(todos, t, putOk).todos == todos[i := t]
    ensures UpdateTodo(todos, t, putOk).todos[i] == t
    ensures forall j :: 0 <= j < |todos| && j != i ==> UpdateTodo(todos, t, putOk).todos[j] == todos[j]
  {
    assert FindById(todos, t.id) == i;
  }

  /** When `i` is the first position with `t`'s id, delete removes exactly that position. */
  lemma DeleteRemovesFirstMatch(todos: seq<Todo>, t: Todo, i: int)
    requires 0 <= i < |todos| && todos[i].id == t.id
    requires forall j :: 0 <= j < i ==> todos[j].id != t.id
    ensures DeleteTodo(todos, t).todos == todos[..i] + todos[i + 1..]
    ensures |DeleteTodo(todos, t).todos| == |todos| - 1
    ensures forall j :: 0 <= j < i ==> DeleteTodo(todos, t).todos[j] == todos[j]
    ensures forall j :: i < j < |todos| ==> DeleteTodo(todos, t).todos[j - 1] == todos[j]
    ensures multiset(DeleteTodo(todos, t).todos) + multiset{todos[i]} == multiset(todos)
  {
    assert FindById(todos, t.id) == i;
    var r := RemoveAt(todos, i);
    assert DeleteTodo(todos, t).todos == r;
  }
}
