/**
 * The task records and the pure logic both servers share: the query filter,
 * the id lookup, the id assignment of create, the partial overwrite of update,
 * the removal of delete, and the invariant on ids that all three mutations keep.
 */
module Todos {
  import opened Wrappers
  import Text

  /** A JSON value as a handler reads it from the parsed request body.
      `Missing` is `undefined` (the key is absent); `Other` is any value that is
      neither a string nor a boolean (a number, null, an array or an object). */
  datatype Value = Missing | Str(s: string) | Bool(b: bool) | Other

  /** A to-do record. The update handler assigns body values to `task` and
      `completed` without checking their type, so both hold a `Value`. */
  datatype Task = Task(id: int, task: Value, completed: Value)

  /** `todo.id === parseInt(id)`: a path id that did not parse (NaN) matches
      no record. */
  predicate Matches(t: Task, id: Option<int>): (m: bool)
    ensures m ==> id.Some?
    ensures id.Some? ==> (m <==> t.id == id.value)
  {
    id.Some? && t.id == id.value
  }

  /** The create handler's check `!task || typeof task !== 'string'` fails
      exactly for a non-empty string, the only input it accepts. */
  predicate IsTaskText(v: Value): (ok: bool)
    ensures ok ==> v.Str?
    ensures v.Str? ==> (ok <==> v.s != "")
  {
    v.Str? && v.s != ""
  }

  /** Create refuses a missing body field, the empty string and every value
      that is not a string, truthy or not. */
  lemma TaskTextRejects(b: bool)
    ensures !IsTaskText(Missing) && !IsTaskText(Str(""))
    ensures !IsTaskText(Bool(b)) && !IsTaskText(Other)
    ensures forall s :: s != "" ==> IsTaskText(Str(s))
  {
  }

  // ---------------------------------------------------------------------------
  // The id invariant

  /** Ids strictly increase along the store. */
  ghost predicate IdsIncreasing(s: seq<Task>) {
    forall i, j :: 0 <= i < j < |s| ==> s[i].id < s[j].id
  }

  /** A stored record has positive id and no undefined field. */
  ghost predicate WellFormed(t: Task) {
    t.id >= 1 && t.task != Missing && t.completed != Missing
  }

  /** What every store reachable from a seed satisfies. */
  ghost predicate Invariant(s: seq<Task>) {
    IdsIncreasing(s) && forall t :: t in s ==> WellFormed(t)
  }

  /** Increasing ids are unique: no two live records share an id. */
  lemma IncreasingIdsAreUnique(s: seq<Task>, i: nat, j: nat)
    requires IdsIncreasing(s)
    requires i < |s| && j < |s| && i != j
    ensures s[i].id != s[j].id
  {
  }

  // ---------------------------------------------------------------------------
  // Queries: Array.prototype.findIndex / find and filter

  /** The index of the first record matching `id`, as `findIndex` finds it
      (`None` for its -1). */
  function FindIndex(s: seq<Task>, id: Option<int>): (r: Option<nat>)
    ensures r.Some? ==> r.value < |s| && Matches(s[r.value], id)
    ensures r.Some? ==> forall j :: 0 <= j < r.value ==> !Matches(s[j], id)
    ensures r.None? <==> forall t :: t in s ==> !Matches(t, id)
  {
    if s == [] then None
    else if Matches(s[0], id) then Some(0)
    else
      match FindIndex(s[1..], id)
      case None => assert s == [s[0]] + s[1..]; None
      case Some(i) => Some(i + 1)
  }

  /** The first record matching `id`, as `find` finds it (`None` for
      `undefined`). */
  function Find(s: seq<Task>, id: Option<int>): (r: Option<Task>)
    ensures r.Some? ==> r.value in s && Matches(r.value, id)
    ensures r.Some? ==> FindIndex(s, id).Some? && r.value == s[FindIndex(s, id).value]
    ensures r.None? <==> forall t :: t in s ==> !Matches(t, id)
  {
    match FindIndex(s, id)
    case None => None
    case Some(k) => Some(s[k])
  }

  /** With unique ids the first match is the only one. */
  lemma FirstMatchIsOnlyMatch(s: seq<Task>, id: Option<int>, j: nat)
    requires IdsIncreasing(s)
    requires FindIndex(s, id).Some?
    requires j < |s| && Matches(s[j], id)
    ensures j == FindIndex(s, id).value
  {
    var k := FindIndex(s, id).value;
    if j != k {
      IncreasingIdsAreUnique(s, j, k);
    }
  }

  /** `a` is a subsequence of `b`: `a` is `b` with some elements left out. */
  predicate IsSubsequence(a: seq<Task>, b: seq<Task>)
    decreases |b|
  {
    a == [] || (b != [] && if a[0] == b[0] then IsSubsequence(a[1..], b[1..])
                           else IsSubsequence(a, b[1..]))
  }

  /** Every sequence is a subsequence of itself. */
  lemma {:induction false} SubsequenceReflexive(s: seq<Task>)
    ensures IsSubsequence(s, s)
    decreases |s|
  {
    if s != [] {
      SubsequenceReflexive(s[1..]);
    }
  }

  /** `todos.filter(todo => todo.completed === done)`: exactly the in-order
      subsequence of the records whose `completed` is the boolean `done`. */
  function Filter(s: seq<Task>, done: bool): (r: seq<Task>)
    ensures IsSubsequence(r, s)
    ensures forall t :: t in r <==> t in s && t.completed == Bool(done)
    ensures forall t: Task :: t.completed == Bool(done) ==> multiset(r)[t] == multiset(s)[t]
  {
    if s == [] then []
    else
      var rest := Filter(s[1..], done);
      assert s == [s[0]] + s[1..];
      if s[0].completed == Bool(done) then
        assert ([s[0]] + rest)[1..] == rest;
        [s[0]] + rest
      else
        rest
  }

  /** The filter the list handlers apply: the query strings "true" and "false"
      name a boolean; any other value, or none, means no filtering. */
  function ParseFilter(completed: Option<string>): (f: Option<bool>)
    ensures f.Some? <==> completed == Some("true") || completed == Some("false")
    ensures f.Some? ==> f.value == (completed == Some("true"))
  {
    if completed == Some("true") then Some(true)
    else if completed == Some("false") then Some(false)
    else None
  }

  /** The records a list request shows: the filtered subsequence when the
      query names a boolean, otherwise the whole store. */
  function Select(s: seq<Task>, completed: Option<string>): (r: seq<Task>)
    ensures IsSubsequence(r, s)
    ensures ParseFilter(completed).Some? ==> r == Filter(s, ParseFilter(completed).value)
    ensures ParseFilter(completed).None? ==> r == s
  {
    match ParseFilter(completed)
    case Some(done) => Filter(s, done)
    case None => SubsequenceReflexive(s); s
  }

  // ---------------------------------------------------------------------------
  // Create: the id assignment and the new record

  /** `todos.length > 0 ? todos[todos.length - 1].id + 1 : 1`: the last
      record's id plus one. On an invariant store it exceeds every id present. */
  function NextId(s: seq<Task>): (r: int)
    ensures IdsIncreasing(s) ==> forall t :: t in s ==> t.id < r
    ensures (forall t :: t in s ==> t.id >= 1) ==> r >= 1
  {
    if |s| > 0 then s[|s| - 1].id + 1 else 1
  }

  /** The record create appends for the accepted text `text`. */
  function NewTodo(s: seq<Task>, text: string): (t: Task)
    ensures Invariant(s) ==> Invariant(s + [t])
    ensures t.id == NextId(s)
    ensures t.task == Str(Text.Trim(text)) && t.completed == Bool(false)
  {
    var t := Task(NextId(s), Str(Text.Trim(text)), Bool(false));
    assert forall u :: u in s + [t] ==> u in s || u == t;
    t
  }

  /** Validation comes before trimming, so a text made only of whitespace
      passes it and is stored as the empty string. */
  lemma WhitespaceTextIsStoredEmpty(s: seq<Task>, text: string)
    requires text != "" && Text.AllWhitespace(text)
    ensures IsTaskText(Str(text))
    ensures NewTodo(s, text).task == Str("")
  {
    Text.TrimOfWhitespaceIsEmpty(text);
  }

  /** Create with the seed ids [1, 2]: the new record gets id 3. */
  lemma NextIdAfterSeed(s: seq<Task>)
    requires |s| == 2 && s[0].id == 1 && s[1].id == 2
    ensures NextId(s) == 3
  {
  }

  /** When the last record is deleted and its id was its predecessor's plus
      one (or 1 with nothing before it), the next create hands out that id
      again: ids are unique among live records, not over the store's history. */
  lemma DeletedLastIdIsReused(s: seq<Task>)
    requires |s| >= 1
    requires |s| == 1 ==> s[0].id == 1
    requires |s| >= 2 ==> s[|s| - 2].id + 1 == s[|s| - 1].id
    ensures NextId(RemoveAt(s, |s| - 1)) == s[|s| - 1].id
  {
  }

  // ---------------------------------------------------------------------------
  // Update: the partial overwrite

  /** `if (task !== undefined) todo.task = task;` and likewise for `completed`:
      each field is overwritten exactly when the body supplies it. */
  function Patch(t: Task, task: Value, completed: Value): (p: Task)
    ensures p.id == t.id
    ensures task != Missing ==> p.task == task
    ensures task == Missing ==> p.task == t.task
    ensures completed != Missing ==> p.completed == completed
    ensures completed == Missing ==> p.completed == t.completed
  {
    t.(task := if task != Missing then task else t.task,
       completed := if completed != Missing then completed else t.completed)
  }

  /** Patching keeps the id, overwrites a field exactly when the body has it,
      and an empty body changes nothing. */
  lemma PatchFields(t: Task, task: Value, completed: Value)
    ensures Patch(t, task, completed).id == t.id
    ensures task != Missing ==> Patch(t, task, completed).task == task
    ensures completed != Missing ==> Patch(t, task, completed).completed == completed
    ensures Patch(t, task, completed).task == t.task <==> task == Missing || task == t.task
    ensures Patch(t, task, completed).completed == t.completed
            <==> completed == Missing || completed == t.completed
    ensures Patch(t, Missing, Missing) == t
  {
  }

  /** Overwriting one record in place keeps the invariant. */
  lemma PatchKeepsInvariant(s: seq<Task>, k: nat, task: Value, completed: Value)
    requires Invariant(s) && k < |s|
    ensures Invariant(s[k := Patch(s[k], task, completed)])
  {
    var s' := s[k := Patch(s[k], task, completed)];
    forall t | t in s' ensures WellFormed(t) {
      var j :| 0 <= j < |s'| && s'[j] == t;
      assert s[j] in s;
    }
  }

  // ---------------------------------------------------------------------------
  // Delete: `todos.splice(k, 1)`

  /** `s` without the record at `k`; the others keep their order. */
  function RemoveAt(s: seq<Task>, k: nat): (r: seq<Task>)
    requires k < |s|
    ensures |r| == |s| - 1
    ensures forall j :: 0 <= j < k ==> r[j] == s[j]
    ensures forall j :: k <= j < |r| ==> r[j] == s[j + 1]
  {
    s[..k] + s[k + 1..]
  }

  /** Removing a record keeps the invariant. */
  lemma RemoveKeepsInvariant(s: seq<Task>, k: nat)
    requires Invariant(s) && k < |s|
    ensures Invariant(RemoveAt(s, k))
  {
    var r := RemoveAt(s, k);
    forall i, j | 0 <= i < j < |r| ensures r[i].id < r[j].id {
      var i' := if i < k then i else i + 1;
      var j' := if j < k then j else j + 1;
      assert r[i] == s[i'] && r[j] == s[j'];
    }
    forall t | t in r ensures WellFormed(t) {
      var j :| 0 <= j < |r| && r[j] == t;
      assert s[if j < k then j else j + 1] in s;
    }
  }

  /** On an invariant store, removing record `k` removes exactly that record:
      its id is gone and every other record is still there. */
  lemma RemoveDropsExactlyOne(s: seq<Task>, k: nat)
    requires IdsIncreasing(s) && k < |s|
    ensures forall t :: t in RemoveAt(s, k) ==> t.id != s[k].id
    ensures forall j :: 0 <= j < |s| && j != k ==> s[j] in RemoveAt(s, k)
  {
    var r := RemoveAt(s, k);
    forall t | t in r ensures t.id != s[k].id {
      var j :| 0 <= j < |r| && r[j] == t;
      IncreasingIdsAreUnique(s, if j < k then j else j + 1, k);
    }
    forall j | 0 <= j < |s| && j != k ensures s[j] in r {
      assert r[if j < k then j else j - 1] == s[j];
    }
  }
}
