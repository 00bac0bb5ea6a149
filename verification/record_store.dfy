/**
 The record store behind the resource endpoint, kept abstract: a map from id
 to record. Its query engine is not part of this model; each call below is the
 reference behaviour assumed of it, and `fault` stands for any failure of the
 store's own (unreachable database, internal error), so every call may throw.
 */
module RecordStore {

  import opened TodoTypes

  type Store = map<string, Todo>

  /** Every record sits under its own id. */
  ghost predicate Keyed(s: Store) {
    forall k :: k in s ==> s[k].id == k
  }

  /** The `data` argument of `create`; an absent field is `undefined`. */
  datatype CreateData = CreateData(title: Option<string>, priority: Option<Priority>, dueDate: Option<Date>)

  /** The `data` argument of `update`; an absent field is `undefined` and leaves the column as it is. */
  datatype UpdateData = UpdateData(
    title: Option<string>,
    priority: Option<Priority>,
    dueDate: Option<Date>,
    isDone: Option<bool>
  )

  /** A store call as the endpoint issues it. */
  datatype Call =
    | FindMany
    | Create(fields: CreateData)
    | Update(key: Option<string>, changes: UpdateData)
    | Delete(id: string)

  /** A call either returns a record and the store after it, or throws and changes nothing. */
  datatype Effect = Done(row: Todo, after: Store) | Threw

  function Or<T>(o: Option<T>, default: T): T {
    match o
    case Some(v) => v
    case None => default
  }

  /** `create`: a new record under the store-chosen `newId`, not yet done. */
  function CreateRow(s: Store, data: CreateData, newId: string, fault: bool): (e: Effect)
    ensures e.Done? ==> newId !in s && e.row.id == newId && !e.row.isDone
    ensures e.Done? ==> e.after == s[newId := e.row]
    ensures e.Done? <==> !fault && newId !in s && data.title.Some? && data.priority.Some? && data.dueDate.Some?
  {
    if fault || newId in s || data.title.None? || data.priority.None? || data.dueDate.None? then Threw
    else
      var row := Todo(newId, data.title.value, data.priority.value, data.dueDate.value, false);
      Done(row, s[newId := row])
  }

  /** `update`: the record under `where` with the given columns overwritten. */
  function UpdateRow(s: Store, where: Option<string>, data: UpdateData, fault: bool): (e: Effect)
    ensures e.Done? <==> !fault && where.Some? && where.value in s
    ensures e.Done? ==> e.row.id == s[where.value].id && e.after == s[where.value := e.row]
  {
    if fault || where.None? || where.value !in s then Threw
    else
      var prev := s[where.value];
      var row := prev.(
        title := Or(data.title, prev.title),
        priority := Or(data.priority, prev.priority),
        dueDate := Or(data.dueDate, prev.dueDate),
        isDone := Or(data.isDone, prev.isDone));
      Done(row, s[where.value := row])
  }

  /** `delete`: the record under `where` is gone; an unknown id throws. */
  function DeleteRow(s: Store, where: string, fault: bool): (e: Effect)
    ensures e.Done? <==> !fault && where in s
    ensures e.Done? ==> e.row == s[where] && e.after == s - {where} && where !in e.after
  {
    if fault || where !in s then Threw
    else Done(s[where], s - {where})
  }

  /**
   `rows` lists the store under the keys `ks`: one row per key, each key of
   the store exactly once, each row the record stored under its key.
   */
  ghost predicate ListsUnder(rows: seq<Todo>, s: Store, ks: seq<string>) {
    && |ks| == |rows| == |s|
    && (forall i :: 0 <= i < |ks| ==> ks[i] in s && rows[i] == s[ks[i]])
    && (forall i, j :: 0 <= i < j < |ks| ==> ks[i] != ks[j])
    && (forall k :: k in s ==> k in ks)
  }

  /** `rows` lists the store completely and without invention, in some order. */
  ghost predicate Lists(rows: seq<Todo>, s: Store) {
    exists ks :: ListsUnder(rows, s, ks)
  }

  /** Every stored record appears in a complete listing. */
  lemma ListedRecord(rows: seq<Todo>, s: Store, ks: seq<string>, k: string)
    requires ListsUnder(rows, s, ks)
    requires k in s
    ensures s[k] in rows
  {
    var i :| 0 <= i < |ks| && ks[i] == k;
    assert rows[i] == s[k];
  }

  /** Every listed row is a stored record. */
  lemma ListedRowIsStored(rows: seq<Todo>, s: Store, ks: seq<string>, i: int)
    requires ListsUnder(rows, s, ks)
    requires 0 <= i < |rows|
    ensures rows[i] in s.Values
  {
    assert s[ks[i]] == rows[i];
  }

  /** A complete listing holds exactly the stored records. */
  lemma ListedValues(rows: seq<Todo>, s: Store, ks: seq<string>)
    requires ListsUnder(rows, s, ks)
    ensures |rows| == |s|
    ensures forall t :: t in rows <==> t in s.Values
  {
    forall t | t in rows
      ensures t in s.Values
    {
      var i :| 0 <= i < |rows| && rows[i] == t;
      ListedRowIsStored(rows, s, ks, i);
    }
    forall t | t in s.Values
      ensures t in rows
    {
      var k :| k in s && s[k] == t;
      ListedRecord(rows, s, ks, k);
    }
  }

  /** In a complete listing of a keyed store, no two rows share an id. */
  lemma ListedIdsDistinct(rows: seq<Todo>, s: Store, ks: seq<string>)
    requires Keyed(s)
    requires ListsUnder(rows, s, ks)
    ensures forall i, j :: 0 <= i < |rows| && 0 <= j < |rows| && rows[i].id == rows[j].id ==> i == j
  {
    forall i, j | 0 <= i < |rows| && 0 <= j < |rows| && rows[i].id == rows[j].id
      ensures i == j
    {
      assert rows[i].id == ks[i] && rows[j].id == ks[j];
    }
  }

  /** `findMany`: every record once, in an order of the store's choosing. */
  method ListRows(s: Store) returns (rows: seq<Todo>)
    ensures Lists(rows, s)
    ensures |rows| == |s|
  {
    rows := [];
    ghost var ks: seq<string> := [];
    var rest := s.Keys;
    while rest != {}
      invariant rest <= s.Keys
      invariant |rows| + |rest| == |s|
      invariant |ks| == |rows|
      invariant forall i :: 0 <= i < |ks| ==> ks[i] in s && ks[i] !in rest && rows[i] == s[ks[i]]
      invariant forall i, j :: 0 <= i < j < |ks| ==> ks[i] != ks[j]
      invariant forall k :: k in s && k !in rest ==> k in ks
      decreases |rest|
    {
      var k :| k in rest;
      rows := rows + [s[k]];
      ks := ks + [k];
      rest := rest - {k};
    }
    assert ListsUnder(rows, s, ks);
  }
}
