# Todo list: list bookkeeping and the `/api/todo` endpoint

This project models the logic of a small todo application in Dafny. It covers:

- the home page's list controller, with `addTodo`, `updateTodo`, `deleteTodo` and the initial load;
- the four handlers of the `/api/todo` resource (GET, POST, PUT, DELETE);
- the rules by which the table and the form build the records they hand to the controller.

A todo is an immutable `Todo` record with an id, a title, a priority (low, medium or high), an opaque due date and a completion flag. The client list is a `seq<Todo>`. Each controller operation is a pure function returning a `Step`:

- the new list;
- the gateway call it issued (`PushTodo`, `PutTodo` or `DropTodo`);
- how its promise settles: resolved with its flag, or rejected because an awaited call threw.

The record store behind the endpoint is a `map<string, Todo>`. Its engine is outside this model, so every store call takes a `fault` flag standing for any failure of its own. The reference behaviour assumed of the store is:

- `create` (`RecordStore.CreateRow`) fails when a field is missing or the chosen id is taken;
- `update` (`RecordStore.UpdateRow`) and `delete` (`RecordStore.DeleteRow`) fail on an unknown id;
- `update` leaves a column alone when its field is absent;
- `findMany` (`RecordStore.ListRows`) lists every record once, in an order of its choosing.

Each handler returns `Handled`: the store call it issued (if any), the response, and the store afterwards. `NetworkError` stands for `NextResponse.error()`.

The table hands each render its row's own object, and `indexOf` compares objects by identity. Every object in the list is a fresh one: the form's values on add, a spread copy or the form's values on update. `TodoTable.RowNumber` is therefore stated over row identities, and `TodoTable.RowNumberOfOwnRow` numbers each row by its position, even when two rows hold equal records. The completion handlers flip `isDone` on that same object before calling `updateTodo`; `TodoTable.PressToggle` models the flip as an update of row `k` followed by `updateTodo`.

Modules, by source file:

| module | file | source |
|---|---|---|
| `TodoTypes` | `todo_types.dfy` | `src/types/index.ts` |
| `Sequences` | `sequences.dfy` | `findIndex`, `indexOf` and `splice` as the components use them |
| `Numerals` | `numerals.dfy` | `Number.prototype.toString` for the provisional id, and its parser |
| `Controller` | `controller.dfy` | `src/app/page.tsx` |
| `RecordStore` | `record_store.dfy` | the abstract store behind `src/app/api/todo/route.ts` |
| `TodoRoute` | `route.dfy` | `src/app/api/todo/route.ts` |
| `TodoTable` | `table.dfy` | `src/components/todoTable.tsx` |
| `TodoForm` | `form.dfy` | `src/components/todoForm.tsx` |
| `Lifecycle` | `lifecycle.dfy` | properties spanning the form, the table, the controller and the endpoint |

The endpoint and the list behave as follows, which a reader might not expect:

- A POST with a missing field, or any other POST failure, gets the generic error response, not a client error.
- Ids are not unique in the client list. The provisional id depends only on the list length, so after a deletion it can repeat an existing id. `Lifecycle.ProvisionalIdCollision` exhibits this. `Lifecycle.DuplicateIdMisdirectsToggle` shows the effect: the completion button of a later row with a duplicate id also overwrites the earlier row. `Lifecycle.DuplicateIdMisdirectsEdit` shows the same for the form: editing the later row rewrites the earlier one and leaves the later row unchanged. With duplicates, pressing a later row's button twice need not restore the list either.
- A PUT for an unknown id gets the generic error response.

## Model

| member | source | states |
|---|---|---|
| `TodoTypes.ParsePriority` | src/types/index.ts:4 | a string is read as a priority exactly when it is one of the three spellings |
| `TodoTypes.PriorityNameRoundTrip` | src/types/index.ts:4 | every priority is read back from its spelling |
| `TodoTypes.PriorityNameInjective` | src/types/index.ts:4 | distinct priorities have distinct spellings |
| `Sequences.FirstIndex` | src/app/page.tsx:29 | the result is -1 iff no element matches; otherwise it matches and no earlier element does |
| `Sequences.RemoveAt` | src/app/page.tsx:43 | removing one position shortens by one, keeps the order of the others, and loses exactly that element (multiset) |
| `Numerals.NatToString` | src/app/page.tsx:16 | a rendered number is a non-empty string of digits with no leading zero |
| `Numerals.DigitsValueOfNatToString` | src/app/page.tsx:16 | the digits of a rendered number denote that number |
| `Numerals.ParseRendered` | src/app/page.tsx:16 | parsing the rendered number gives the number back |
| `Numerals.ParseDecimal` | src/app/page.tsx:16 | a string the parser accepts is exactly the rendering of the number it reads |
| `Numerals.RenderParsed` | src/app/page.tsx:16 | rendering the value of a canonical numeral gives the numeral back |
| `Numerals.NatToStringInjective` | src/app/page.tsx:16 | distinct numbers render as distinct ids |
| `Controller.FindById` | src/app/page.tsx:29 | the result is -1 iff no record has the id; otherwise it is the first position with that id |
| `Controller.ProvisionalId` | src/app/page.tsx:16 | the provisional id is non-empty and denotes the list length plus one |
| `Controller.Admit` | src/app/page.tsx:15-21 | a non-empty id is kept and a missing or empty one becomes the provisional id; the record is done only if it arrived done; the other fields are kept |
| `Controller.AddTodo` | src/app/page.tsx:14-26 | the list grows by one with the old list as prefix and the admitted record last; that record is pushed; the promise resolves `true` when the push succeeds and rejects otherwise |
| `Controller.UpdateTodo` | src/app/page.tsx:28-37 | no matching id: list unchanged, no call, `false`; a match: same length, the record is in the list, `putTodo` is issued, `true` when it succeeds |
| `Controller.DeleteTodo` | src/app/page.tsx:39-48 | no matching id: list unchanged, no call, `false`; a match: one record fewer, `dropTodo` issued, `true` whatever the server answers |
| `Controller.Load` | src/app/page.tsx:50-54 | a delivered list replaces the current one; a failed fetch leaves it |
| `Controller.UpdateReplacesFirstMatch` | src/app/page.tsx:29-36 | update writes the record at the first position with its id and leaves every other position as it was |
| `Controller.DeleteRemovesFirstMatch` | src/app/page.tsx:40-47 | delete removes exactly the first position with the id; earlier records stay put, later ones move up by one |
| `RecordStore.CreateRow` | src/app/api/todo/route.ts:20-22 | the assumed `create`: succeeds iff no fault, the id is free and all three fields are present; then the store gains exactly an open record under the new id |
| `RecordStore.UpdateRow` | src/app/api/todo/route.ts:34-42 | the assumed `update`: succeeds iff no fault and the key is stored; then only that key changes and the record keeps its id |
| `RecordStore.DeleteRow` | src/app/api/todo/route.ts:59 | the assumed `delete`: succeeds iff no fault and the key is stored; then exactly that key is removed |
| `RecordStore.ListRows` | src/app/api/todo/route.ts:6 | the listing pairs its rows one-to-one with the store's keys: each key once, each row the record under its key |
| `TodoRoute.Get` | src/app/api/todo/route.ts:4-13 | GET answers 200 with a complete, unfiltered listing and leaves the store; a store failure gives the generic error |
| `TodoRoute.Post` | src/app/api/todo/route.ts:15-29 | the create call carries only title, priority and due date; success answers 200 with a new open record under the store's id; any failure gives the generic error and leaves the store |
| `TodoRoute.Put` | src/app/api/todo/route.ts:31-49 | the update call is keyed by `body.id` and writes title, priority, due date and completion; the record keeps its id and no other key changes; any failure gives the generic error and leaves the store |
| `TodoRoute.Delete` | src/app/api/todo/route.ts:51-66 | a missing or empty id gives 400 "Invalid request" with no store call; success (200 `{success:true}`) iff the id is stored and the store does not fail, and it removes that key; every failure gives the same 400 and leaves the store |
| `TodoRoute.PostIgnoresIdAndIsDone` | src/app/api/todo/route.ts:17-22 | two bodies that agree on title, priority and due date get identical POST outcomes |
| `TodoRoute.PutIdempotent` | src/app/api/todo/route.ts:34-42 | a second PUT with the same body leaves the store as the first left it |
| `TodoRoute.HandlersKeepRecordsKeyed` | src/app/api/todo/route.ts:20-59 | when every record sits under its own id before a POST, PUT or DELETE, that still holds after it |
| `TodoRoute.DeleteRemovesOnlyThatRecord` | src/app/api/todo/route.ts:59-61 | after a successful DELETE the id is gone and every other record is unchanged |
| `TodoRoute.CreatedRowIsListed` | src/app/api/todo/route.ts:6-24 | in a keyed store, a record POST created appears, open and under its new id, in every complete listing afterwards, and exactly one listed record has that id |
| `TodoTable.ToggleButton` | src/components/todoTable.tsx:72-96 | "Mark as Completed" is offered iff the record is open and submits it done; "Mark as Pending" is offered iff it is done and submits it open; nothing but the flag changes |
| `TodoTable.ToggleTwice` | src/components/todoTable.tsx:72-96 | pressing the completion button twice gives back the original record |
| `TodoTable.StatusTag` | src/components/todoTable.tsx:61-64 | the status reads "Completed" iff the todo is done and "Pending" iff not; the tag is green iff done and red iff not |
| `TodoTable.PriorityColour` | src/components/todoTable.tsx:37-45 | "low" is green, "medium" is orange, any other string is red, and each colour only for those |
| `TodoTable.PriorityColours` | src/components/todoTable.tsx:37-45 | the three priorities get green, orange and red, pairwise different |
| `Sequences.IndexOf` | src/components/todoTable.tsx:26 | the result is -1 iff the element is absent; otherwise it is the element's first position |
| `TodoTable.RowNumber` | src/components/todoTable.tsx:26 | the serial number is 0 iff the row object is absent, otherwise one past its first occurrence |
| `TodoTable.RowNumberOfOwnRow` | src/components/todoTable.tsx:26 | when no row object occurs twice, every row is numbered by its own position plus one |
| `TodoTable.PressToggle` | src/components/todoTable.tsx:72-96 | a press flips row `k` in place and hands the flipped copy to `updateTodo`: row `k` ends flipped, the length is kept, records with another id are untouched, and `putTodo` carries the flipped record |
| `TodoForm.ChoicesAreExactlyThePriorities` | src/components/todoForm.tsx:14-18 | the priority options are exactly the three priority spellings, each once |
| `TodoForm.Submit` | src/components/todoForm.tsx:44-59 | a submission is refused iff title, priority or due date is unfilled; in edit mode it carries the edited todo's id and completion with the form's fields; in create mode it has no id and no completion flag |
| `TodoForm.OnFinish` | src/components/todoForm.tsx:44-68 | a refused submission touches no list; an edit never reaches `addTodo` and keeps the length; a creation pushes and grows the list by one |
| `Lifecycle.ToggleFlipsOnlyCompletion` | src/components/todoTable.tsx:72-96 | for a record first with its id, its completion button flips that record's flag and changes nothing else in the list |
| `Lifecycle.ToggleTwiceRestoresList` | src/components/todoTable.tsx:72-96 | for a row first with its id, completing then reopening it, or the reverse, restores the list, whether or not either `putTodo` succeeds |
| `Lifecycle.DuplicateIdMisdirectsToggle` | src/components/todoTable.tsx:72-96 | when the first record with row `k`'s id is at an earlier row `i`, pressing row `k`'s button leaves the flipped record at both `i` and `k`, so the record at `i` is lost |
| `Lifecycle.EditKeepsIdAndCompletion` | src/components/todoForm.tsx:47-51 | editing a listed todo that is first with its id keeps its id and completion, takes the form's title, priority and due date, and touches no other position |
| `Lifecycle.DuplicateIdMisdirectsEdit` | src/components/todoForm.tsx:47-51 | when the first record with row `k`'s id is at an earlier row `i`, editing row `k` writes the edited record at `i` and leaves row `k` as it was |
| `Lifecycle.CreateAppendsOpenTodo` | src/components/todoForm.tsx:59 | creating from the form appends an open todo under the id one past the old length |
| `Lifecycle.AddKeepsNumbering` | src/app/page.tsx:15-23 | adding records without ids to a list numbered 1..n gives a list numbered 1..n+1 |
| `Lifecycle.NumberedIdsDistinct` | src/app/page.tsx:16 | in a list built only by additions, provisional ids are pairwise distinct |
| `Lifecycle.ProvisionalIdCollision` | src/app/page.tsx:16 | add, add, delete the first, add: two records carry the id "2" |
| `Lifecycle.InitialLoadMirrorsStore` | src/app/page.tsx:50-54 | the list loaded from a successful GET has one entry per stored record and holds exactly the stored records |
| `Lifecycle.PushedTodoStoredUnderStoreId` | src/app/api/todo/route.ts:18-22 | the pushed todo is stored under the store's id, open; its provisional id does not enter the store |
| `Lifecycle.UnsyncedDeleteReportsSuccess` | src/app/page.tsx:39-48 | deleting a listed todo unknown to the store reports success in the client while the endpoint answers 400 and keeps the store |
| `Lifecycle.BuyMilkScenario` | src/app/api/todo/route.ts:15-66 | creating "Buy milk" gives open record "1", completing it flips only the flag, and deleting it empties the store |

## Left out

- `TodoForm.Submit`: the todo being edited is an input (`editing`). In the program it is set by a row's Edit button and cleared only after an edit is submitted; `handleCancel` closes the form without clearing it. So after Edit and Cancel, the "+" button opens the form still in edit mode, and submitting it updates the old todo. The model does not track the edit target across these interactions.
- `src/actions/todos.ts` (the axios gateway) is not modelled beyond the call each mutation issues. Network I/O is out of scope. `Controller.DeleteTodo` has no failure input because `deleteTodo` does not await `dropTodo` (which in any case swallows its errors).
- `src/app/layout.tsx` is only theme and HTML shell.
- Asynchrony is left out. This covers the interleaving of optimistic mutations with server calls, React state scheduling and stale closures. Each operation is one atomic step on the list it is given.
- Rendering, styling, antd Modal/Form/Table behaviour and toast messages are left out. The toggle button's colour, the form's loading flag and the modal's open state are omitted too.
- Dates are opaque. Dayjs parsing and formatting, `toLocaleDateString`, the DatePicker's minimum date taken from the clock, and the edit-mode `toDate()` conversion are left out.
- The record store's internals are not modelled. Id generation is an input (`newId`), and every store failure is one `fault` flag.
- JSON body parsing: a body that fails to parse is `None` and gets the generic error. Field types inside a parsed body are not checked; priority is always one of the three values.
- `Controller.ProvisionalId`: list lengths are unbounded integers. The source's double-precision number is exact for any realistic list length.
