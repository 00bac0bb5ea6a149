/**
 The single entity of the todo application and the small value types it is
 built from. A `Todo` is an immutable record; the client list, the form and
 the table all work on copies of it.
 */
module TodoTypes {

  /** A value that may be absent (`undefined` or `null` on the JavaScript side). */
  datatype Option<+T> = None | Some(value: T)

  /** The three priorities a todo may carry. */
  datatype Priority = Low | Medium | High

  /** A due date. Its calendar structure plays no part in the model. */
  datatype Date = Date(stamp: int)

  datatype Todo = Todo(
    id: string,
    title: string,
    priority: Priority,
    dueDate: Date,
    isDone: bool
  )

  /** JavaScript truthiness of an optional string: present and non-empty. */
  predicate Truthy(s: Option<string>) {
    s.Some? && s.value != ""
  }

  /** The spelling of a priority on the wire and in the form's radio group. */
  function PriorityName(p: Priority): string {
    match p
    case Low => "low"
    case Medium => "medium"
    case High => "high"
  }

  /** Reads a priority back from its spelling; any other string is not a priority. */
  function ParsePriority(s: string): (r: Option<Priority>)
    ensures r.Some? ==> PriorityName(r.value) == s
    ensures r.None? ==> forall p :: PriorityName(p) != s
  {
    if s == "low" then Some(Low)
    else if s == "medium" then Some(Medium)
    else if s == "high" then Some(High)
    else None
  }

  /** Every priority survives being written out and read back. */
  lemma PriorityNameRoundTrip(p: Priority)
    ensures ParsePriority(PriorityName(p)) == Some(p)
  {
    match p
    case Low =>
    case Medium =>
    case High =>
  }

  /** Distinct priorities have distinct spellings. */
  lemma PriorityNameInjective(p: Priority, q: Priority)
    ensures PriorityName(p) == PriorityName(q) ==> p == q
  {
    PriorityNameRoundTrip(p);
    PriorityNameRoundTrip(q);
  }
}
