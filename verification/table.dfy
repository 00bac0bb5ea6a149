/**
 The table of todos: what each row shows (row number, priority tag, status
 tag) and the record its completion button hands to `updateTodo`.
 */
module TodoTable {

  import opened TodoTypes
  import opened Sequences
  import Controller

  /** The completion button of a row: its caption and the record it submits. */
  datatype Button = Button(caption: string, payload: Todo)

  const MarkCompleted: string := "Mark as Completed"
  const MarkPending: string := "Mark as Pending"

  /**
   A done record offers "Mark as Pending" and submits itself not done; an
   open one offers "Mark as Completed" and submits itself done.
   */
  function ToggleButton(record: Todo): (b: Button)
    ensures b.caption == MarkCompleted <==> !record.isDone
    ensures b.caption == MarkPending <==> record.isDone
    ensures b.payload.isDone <==> b.caption == MarkCompleted
    ensures b.payload.(isDone := record.isDone) == record
  {
    if record.isDone then Button(MarkPending, record.(isDone := false))
    else Button(MarkCompleted, record.(isDone := true))
  }

  /** The record a row's completion button submits. */
  function Toggle(record: Todo): Todo {
    ToggleButton(record).payload
  }

  /** Pressing the completion button twice gives back the record it started from. */
  lemma ToggleTwice(record: Todo)
    ensures Toggle(Toggle(record)) == record
  {
    var once := ToggleButton(record).payload;
    assert once.isDone != record.isDone;
  }

  /** A coloured tag as the table renders it. */
  datatype Tag = Tag(text: string, colour: string)

  /** A row's status tag: green "Completed" for a done todo, red "Pending" otherwise. */
  function StatusTag(isDone: bool): (tag: Tag)
    ensures tag.text == "Completed" <==> isDone
    ensures tag.text == "Pending" <==> !isDone
    ensures tag.colour == "green" <==> isDone
    ensures tag.colour == "red" <==> !isDone
  {
    Tag(if isDone then "Completed" else "Pending", if isDone then "green" else "red")
  }

  /** The colour of a row's priority tag, read from the priority's spelling. */
  function PriorityColour(priority: string): (colour: string)
    ensures colour == "green" <==> priority == "low"
    ensures colour == "orange" <==> priority == "medium"
    ensures colour == "red" <==> priority != "low" && priority != "medium"
  {
    if priority == "low" then "green"
    else if priority == "medium" then "orange"
    else "red"
  }

  /** The three priorities get three different colours, high priority red. */
  lemma PriorityColours(p: Priority)
    ensures PriorityColour(PriorityName(p)) == (match p case Low => "green" case Medium => "orange" case High => "red")
    ensures forall q :: q != p ==> PriorityColour(PriorityName(q)) != PriorityColour(PriorityName(p))
  {
  }

  /**
   The serial number shown in a row: one more than the first position of the
   row's own element, 0 if absent. The table's rows are objects compared by
   identity, so `R` stands for whatever identifies a row.
   */
  function RowNumber<R(==)>(rows: seq<R>, row: R): (n: int)
    ensures 0 <= n <= |rows|
    ensures n == 0 <==> row !in rows
    ensures n > 0 ==> rows[n - 1] == row
    ensures forall j :: 0 <= j < n - 1 ==> rows[j] != row
  {
    IndexOf(rows, row) + 1
  }

  /** When no row object occurs twice, every row is numbered by its own position. */
  lemma RowNumberOfOwnRow<R>(rows: seq<R>, k: int)
    requires forall i, j :: 0 <= i < j < |rows| ==> rows[i] != rows[j]
    requires 0 <= k < |rows|
    ensures RowNumber(rows, rows[k]) == k + 1
  {
    var n := RowNumber(rows, rows[k]);
    assert rows[n - 1] == rows[k];
  }

  /**
   A press of row `k`'s completion button: the handler first flips the row's
   own record in place, then hands the flipped copy to `updateTodo`, which
   overwrites the first record carrying that id.
   */
  function PressToggle(todos: seq<Todo>, k: int, putOk: bool): (r: Controller.Step)
    requires 0 <= k < |todos|
    ensures |r.todos| == |todos|
    ensures r.todos[k] == Toggle(todos[k])
    ensures r.call == Some(Controller.PutTodo(Toggle(todos[k])))
    ensures r.reply == (if putOk then Controller.Resolved(true) else Controller.Rejected)
    ensures forall j :: 0 <= j < |todos| && todos[j].id != todos[k].id ==> r.todos[j] == todos[j]
  {
    var t := Toggle(todos[k]);
    var flipped := todos[k := t];
    assert flipped[k].id == t.id;
    var i := Controller.FindById(flipped, t.id);
    assert 0 <= i <= k;
    Controller.UpdateReplacesFirstMatch(flipped, t, putOk, i);
    Controller.UpdateTodo(flipped, t, putOk)
  }
}
