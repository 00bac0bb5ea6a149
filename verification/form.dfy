/**
 The add/edit form: its required-field rules, its priority choices, and where
 a valid submission goes. In edit mode the submitted record is the form's
 values merged with the todo being edited; in create mode the values alone go
 to `addTodo`.
 */
module TodoForm {

  import opened TodoTypes
  import Controller

  /** One option of the priority radio group. */
  datatype Choice = Choice(caption: string, value: string)

  const PriorityChoices: seq<Choice> := [Choice("Low", "low"), Choice("Medium", "medium"), Choice("High", "high")]

  /** The values the radio group can produce. */
  function ChoiceValues(): seq<string>
  {
    seq(|PriorityChoices|, i requires 0 <= i < |PriorityChoices| => PriorityChoices[i].value)
  }

  /** The radio group offers exactly the three priorities, each once. */
  lemma ChoicesAreExactlyThePriorities()
    ensures forall p :: PriorityName(p) in ChoiceValues()
    ensures forall v :: v in ChoiceValues() ==> ParsePriority(v).Some?
    ensures forall i, j :: 0 <= i < j < |ChoiceValues()| ==> ChoiceValues()[i] != ChoiceValues()[j]
  {
    var vs := ChoiceValues();
    assert vs == ["low", "medium", "high"];
    forall p: Priority ensures PriorityName(p) in vs {
      match p
      case Low => assert vs[0] == PriorityName(p);
      case Medium => assert vs[1] == PriorityName(p);
      case High => assert vs[2] == PriorityName(p);
    }
  }

  /** The form's fields as the form hands them over; an unfilled field is absent. */
  datatype Values = Values(title: Option<string>, priority: Option<Priority>, dueDate: Option<Date>)

  /** The three `required` rules; an empty title counts as not filled. */
  predicate Complete(v: Values) {
    Truthy(v.title) && v.priority.Some? && v.dueDate.Some?
  }

  /** What a press of the submit button leads to. */
  datatype Submission =
    | Refused                              // a required field is missing: no list operation
    | Edit(todo: Todo)                     // goes to `updateTodo`
    | Create(draft: Controller.Draft)      // goes to `addTodo`

  /**
   Submitting the form while `editing` is (or is not) the todo being edited.
   The edited todo's id and completion flag override anything in the values.
   */
  function Submit(editing: Option<Todo>, v: Values): (s: Submission)
    ensures s.Refused? <==> !Complete(v)
    ensures Complete(v) && editing.Some? ==>
      && s.Edit?
      && s.todo.id == editing.value.id
      && s.todo.isDone == editing.value.isDone
      && s.todo.title == v.title.value && s.todo.priority == v.priority.value && s.todo.dueDate == v.dueDate.value
    ensures Complete(v) && editing.None? ==>
      && s.Create?
      && s.draft.id.None? && s.draft.isDone.None?
      && s.draft.title == v.title.value && s.draft.priority == v.priority.value && s.draft.dueDate == v.dueDate.value
  {
    if !Complete(v) then Refused
    else match editing
      case Some(todo) =>
        Edit(Todo(todo.id, v.title.value, v.priority.value, v.dueDate.value, todo.isDone))
      case None =>
        Create(Controller.Draft(None, v.title.value, v.priority.value, v.dueDate.value, None))
  }

  /**
   `onFinish` as seen by the list: an edit runs `updateTodo` and returns
   before `addTodo` could run; a creation runs `addTodo`; a refused
   submission touches nothing. `callOk` says whether the awaited gateway call
   succeeded.
   */
  function OnFinish(todos: seq<Todo>, editing: Option<Todo>, v: Values, callOk: bool): (r: Option<Controller.Step>)
    ensures r.None? <==> !Complete(v)
    ensures Complete(v) && editing.Some? ==> r.value.call.None? || r.value.call.value.PutTodo?
    ensures Complete(v) && editing.None? ==> r.value.call.Some? && r.value.call.value.PushTodo?
    ensures r.Some? ==> |r.value.todos| == |todos| + (if editing.Some? then 0 else 1)
  {
    match Submit(editing, v)
    case Refused => None
    case Edit(todo) => Some(Controller.UpdateTodo(todos, todo, callOk))
    case Create(draft) => Some(Controller.AddTodo(todos, draft, callOk))
  }
}
