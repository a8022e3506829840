# ToDoList API — a verified model of the task store

The service keeps one in-memory list of to-do records `{id, task, completed}`
and serves five handlers over it: list (optionally filtered by the
`completed` query parameter), get by id, create, update and delete. It ships
in two variants, `server.js` and `server_Notes.js`. They have different seed
data and different response shapes, and `server_Notes.js` has no get-by-id
handler.

The model has five modules:

- `Wrappers` (`wrappers.dfy`): `Option`.
- `Text` (`text.dfy`): JavaScript's `String.prototype.trim`, specified as
  the unique infix of the input with no whitespace at either end and only
  whitespace around it.
- `Todos` (`todos.dfy`): the shared logic.
  - The record type. Its `task` and `completed` fields hold a JSON `Value`
    (`Missing | Str | Bool | Other`), because update writes body values
    without a type check.
  - The pure queries: `filter`, `find` and `findIndex`.
  - The create rule: the id is the last record's id plus one, the text is
    trimmed, and `completed` is false.
  - The partial overwrite of update and the `splice` of delete.
  - The store invariant. Ids strictly increase along the list, so they are
    unique, they are positive, and no stored field is undefined. Every
    mutation is shown to keep it.
- `TodoServer` (`server.dfy`): `server.js`. The class `Store` holds the list
  as a `seq<Task>` field, and each handler is a method. List and get only
  read the list. Create, update and delete reassign it. Each method returns
  a `Response` whose `Status()` is the HTTP status code.
- `TodoServerNotes` (`server_notes.dfy`): `server_Notes.js`, built the same
  way.

Inputs arrive already parsed:

- the query parameter is an `Option<string>`;
- the path id is an `Option<int>`, where `None` is a `parseInt` result of
  NaN, which matches no record;
- each body field is a `Value`, where `Missing` is `undefined`.

Message texts are abstracted into response variants that carry what the
message interpolates: the filter, the id or the record.

Two consequences of the code are worth stating:

- Create checks the text before it trims it. So a text made only of spaces
  is accepted and stored as `""` (`Todos.WhitespaceTextIsStoredEmpty`).
  Update can also store `""`, or a value that is not a string. A record's
  text is therefore not always a non-empty string.
- New ids are the last record's id plus one, and deleting is a `splice`
  that keeps the order. So ids stay strictly increasing along the list and
  never repeat among live records (`Todos.RemoveKeepsInvariant`,
  `Todos.NextId`). What can happen is that the id of a deleted last record
  is handed out again (`Todos.DeletedLastIdIsReused`).

## Model

| member | source | states |
|---|---|---|
| `Text.IsJsWhitespace` | server.js:140 | the characters trim removes are the ECMAScript WhiteSpace and LineTerminator tables; within ASCII they are exactly space and the control characters 9 to 13 |
| `Text.Trim` | server.js:140 | the trimmed text is the infix of the input that starts after its leading whitespace, is followed only by whitespace, and neither starts nor ends with whitespace |
| `Text.LeadingWhitespace` | server.js:140 | the length of the longest all-whitespace prefix |
| `Text.TrailingWhitespace` | server.js:140 | the length of the longest all-whitespace suffix |
| `Text.TrimIdempotent` | server.js:140 | trimming a trimmed text changes nothing |
| `Text.TrimOfWhitespaceIsEmpty` | server.js:140 | a text of only whitespace trims to the empty string |
| `Text.TrimKeepsTrimmed` | server.js:140 | a text with no whitespace at its ends is its own trim |
| `Todos.Matches` | server.js:99 | a record matches exactly when the path id parsed and equals its id; a NaN id matches nothing |
| `Todos.IsTaskText` | server.js:125 | only a string passes create's check, and a string passes exactly when it is not empty |
| `Todos.TaskTextRejects` | server.js:125-129 | create's check rejects a missing field, the empty string, booleans and every other non-string, and accepts every non-empty string |
| `Todos.IncreasingIdsAreUnique` | server.js:137 | on a store whose ids increase, two different positions have different ids |
| `Todos.FindIndex` | server.js:202 | the result is the first position whose id equals the path id; it is absent exactly when no record matches, including when the id is NaN |
| `Todos.Find` | server.js:99 | the result is the first matching record of the store, the one at the position `FindIndex` gives; it is absent exactly when no record matches |
| `Todos.FirstMatchIsOnlyMatch` | server.js:168 | on an invariant store, the first matching position is the only one |
| `Todos.Filter` | server.js:57 | the result is the in-order subsequence of the store holding exactly the records whose `completed` is the given boolean, each as often as in the store |
| `Todos.ParseFilter` | server.js:53 | a filter applies exactly for the query strings "true" and "false", and its boolean is true exactly for "true" |
| `Todos.SubsequenceReflexive` | server.js:49 | the unfiltered list, the whole store, is a subsequence of the store |
| `Todos.Select` | server.js:49-58 | the shown records are a subsequence of the store: the filtered subsequence when the query names a boolean, otherwise the whole store |
| `Todos.NextId` | server.js:137 | on a store with increasing ids, the new id exceeds every id present; with positive ids it is positive |
| `Todos.NewTodo` | server.js:132-144 | the new record has id `NextId` (the last id plus one, or 1), the trimmed text and `completed` false, and appending it keeps the store invariant |
| `Todos.WhitespaceTextIsStoredEmpty` | server.js:125-140 | a non-empty text of only whitespace passes validation and is stored as the empty string |
| `Todos.NextIdAfterSeed` | server.js:17-22 | with the seed ids 1 and 2 the next create gets id 3 |
| `Todos.DeletedLastIdIsReused` | server.js:137 | after the last record is deleted, the next create can hand out its id again |
| `Todos.Patch` | server.js:181-184 | the patched record keeps its id; each of `task` and `completed` becomes the body's value when the body supplies it and is kept otherwise |
| `Todos.PatchFields` | server.js:181-184 | update keeps the id; a supplied field takes the body's value; a field changes only when the body supplies a different value; an empty body changes nothing |
| `Todos.PatchKeepsInvariant` | server.js:181-184 | overwriting the fields of one record in place keeps the store invariant |
| `Todos.RemoveAt` | server.js:211 | removing position k drops the length by one and keeps every other record in its order |
| `Todos.RemoveKeepsInvariant` | server.js:211 | removing a record keeps the store invariant |
| `Todos.RemoveDropsExactlyOne` | server.js:202-211 | on an invariant store, the removed id is gone and every other record remains |
| `TodoServer.Response.Status` | server.js:45-215 | the not-found replies are sent with 404, the bad request with 400, and every other reply with 200 |
| `TodoServer.SeedInvariant` | server.js:17-22 | the seed list satisfies the store invariant |
| `TodoServer.Store.constructor` | server.js:17-22 | the store starts as the seed list `[{1,"Plan out dinners",false},{2,"Go to Wegmans",false}]` |
| `TodoServer.Store.List` | server.js:36-80 | an empty store gives the "no items" reply; a "true"/"false" filter that matches nothing gives the "no match" reply; an absent parameter gives the bare list; any present parameter gives a message plus the selected subsequence (the whole store for a non-boolean string); always status 200 |
| `TodoServer.Store.Get` | server.js:85-114 | an empty store gives 404; no matching record gives 404 with the requested id; otherwise the reply is the one record with that id, status 200 |
| `TodoServer.Store.Create` | server.js:119-153 | invalid text gives 400 and leaves the store unchanged; otherwise exactly one record is appended, with id last+1 (or 1), the trimmed text and `completed` false, earlier records unchanged, status 200; the invariant is kept |
| `TodoServer.Store.Update` | server.js:158-190 | no matching id gives 404 and leaves the store unchanged; otherwise only the first matching record is overwritten, field by field as supplied, and the reply is its new value; the invariant is kept |
| `TodoServer.Store.Delete` | server.js:195-217 | no matching id gives 404 and leaves the store unchanged; otherwise exactly the first match is spliced out, the others keep their order, and the reply is the removed record's prior value; the invariant is kept |
| `TodoServer.Scenario` | server.js:17-217 | from the seed: create "Buy milk", complete record 1, delete record 2; listing with `completed=false` then yields exactly `[{3,"Buy milk",false}]` |
| `TodoServerNotes.Response.Status` | server_Notes.js:36-104 | the bad request is sent with 400, a created record with 201, not found with 404, and the list, updated and deleted replies with 200 |
| `TodoServerNotes.SeedInvariant` | server_Notes.js:13-16 | the variant's seed list satisfies the store invariant |
| `TodoServerNotes.Store.constructor` | server_Notes.js:13-16 | the store starts as `[{1,"Plan out dinners",false},{2,"Go to Wegmans",true}]` |
| `TodoServerNotes.Store.List` | server_Notes.js:28-36 | the reply is the filtered subsequence for "true"/"false" and otherwise the whole store; an empty store gives the empty list, not a separate reply; status 200 |
| `TodoServerNotes.Store.Create` | server_Notes.js:48-66 | invalid text gives 400 and leaves the store unchanged; otherwise the last+1 record is appended and returned with status 201 |
| `TodoServerNotes.Store.Update` | server_Notes.js:71-88 | no matching id gives 404 and leaves the store unchanged; otherwise the first match gets the partial overwrite and is returned |
| `TodoServerNotes.Store.Delete` | server_Notes.js:93-105 | no matching id gives 404 and leaves the store unchanged; otherwise the first match is spliced out and returned in a one-element list, the rest keeping their order |
| `TodoServerNotes.SeedCompleted` | server_Notes.js:13-34 | on the seed, `completed=true` selects record 2 alone |
| `TodoServerNotes.Scenario` | server_Notes.js:28-105 | from the seed, `completed=true` lists record 2; after deleting it, the unfiltered list is record 1 alone |

## Left out

- Express bootstrap, JSON middleware, the port constant, `app.listen` and console logging: framework plumbing and I/O.
- The root welcome route: a constant text reply with no logic.
- `parseInt`: the path id arrives as `Option<int>`. `None` stands for NaN. A string that `parseInt` reads only partly (for example "2abc") is assumed already mapped to its integer.
- Query strings parsed into arrays or objects (a repeated `completed` key): the parameter is modelled as an optional string.
- Exact message texts: each reply's variant carries the values its message interpolates, with one exception. The not-found messages of `server.js` interpolate the raw path text (such as "2abc" or "0x10"), while `NotFound` carries the parsed `Option<int>`.
- TodoServer.Store.Update: assumes the record's `task` and `completed` convert to a string in the reply's template literal (server.js:188). A JSON object with no primitive conversion (`{"toString": 1}`) makes the source throw there. Express then answers 500, after the record has already been overwritten. The model answers `Updated` with 200.
- TodoServer.Store.Get: the same assumption for the reply message (server.js:112). A stored value of that kind makes the source answer 500 where the model answers `Found` with 200.
- TodoServer.Store.Delete: the same assumption for the reply message (server.js:215). The source answers 500 after the record has been spliced out; the model answers `Deleted` with 200.
- TodoServer.Response.Status: the 500 reply of those throws is not a variant. server_Notes.js replies with `res.json` and does not convert values to strings, so it is not affected.
- Strings are Dafny strings, which are sequences of Unicode scalar values. JavaScript strings are UTF-16 and can hold a lone surrogate that arrives through JSON (such as "\ud800"). The model cannot represent such a text.
- `Other` stands for every JSON value that is neither a string nor a boolean (number, null, array, object). Two different such values are not told apart. This does not matter for validation or filtering, because both treat all of them alike.
- The second and third `res.json` calls of the `server_Notes.js` list handler: they run after a response has been sent, so only the first reply is modelled. The error they raise in the framework is not modelled.
- The commented-out bulk delete in `server.js`: not live code.
- Object aliasing: a handler's reply is serialised before the next request runs, so records are modelled as values and the in-place field writes of update as a sequence update.
- JavaScript numbers are doubles: ids are unbounded integers, so no precision loss beyond 2^53 is modelled.
- Concurrency and HTTP transport: each handler runs to completion before the next starts.
- A request without a JSON body: the body is always an object, possibly empty.
