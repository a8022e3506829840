/**
 * server_Notes.js: the variant of the store. Its list handler always answers
 * with the bare (filtered) list, create answers 201 with the new record,
 * update answers with the updated record and delete wraps the removed record
 * in a one-element list. It has no get-by-id handler.
 */
module TodoServerNotes {
  import opened Wrappers
  import opened Todos

  /** The seed list: the second record starts completed. */
  const Seed: seq<Task> := [
    Task(1, Str("Plan out dinners"), Bool(false)),
    Task(2, Str("Go to Wegmans"), Bool(true))
  ]

  datatype Response =
    | Tasks(tasks: seq<Task>)         // GET /todos: the list itself
    | BadRequest                      // create without a non-empty string
    | Created(task: Task)
    | NotFound                        // no record has the path id
    | Updated(task: Task)
    | Deleted(removed: seq<Task>)     // what splice returned
  {
    /** The HTTP status code sent with the response. */
    function Status(): (code: int)
      ensures code == 400 <==> BadRequest?
      ensures code == 201 <==> Created?
      ensures code == 404 <==> NotFound?
      ensures code == 200 <==> Tasks? || Updated? || Deleted?
    {
      if BadRequest? then 400
      else if Created? then 201
      else if NotFound? then 404
      else 200
    }
  }

  lemma SeedInvariant()
    ensures Invariant(Seed)
  {
  }

  class Store {
    var todos: seq<Task>

    ghost predicate Valid()
      reads this
    {
      Invariant(todos)
    }

    /** The store as the module is loaded: the seed list. */
    constructor ()
      ensures Valid() && todos == Seed
    {
      todos := Seed;
    }

    /** GET /todos: the records the filter selects, with no special case for
        an empty store (only the first response the handler sends is seen). */
    method List(completed: Option<string>) returns (r: Response)
      ensures r.Tasks?
      ensures ParseFilter(completed).Some? ==> r.tasks == Filter(todos, ParseFilter(completed).value)
      ensures ParseFilter(completed).None? ==> r.tasks == todos
      ensures todos == [] ==> r.tasks == []
      ensures r.Status() == 200
    {
      r := Tasks(Select(todos, completed));
    }

    /** POST /todos with body field `task`. */
    method Create(task: Value) returns (r: Response)
      requires Valid()
      modifies this
      ensures Valid()
      ensures !IsTaskText(task) ==> r == BadRequest && todos == old(todos)
      ensures IsTaskText(task) ==> r == Created(NewTodo(old(todos), task.s))
                                   && todos == old(todos) + [r.task]
      ensures r.Status() == if IsTaskText(task) then 201 else 400
    {
      if !IsTaskText(task) {
        return BadRequest;
      }
      var t := NewTodo(todos, task.s);
      todos := todos + [t];
      r := Created(t);
    }

    /** PUT /todos/:id with optional body fields `task` and `completed`. */
    method Update(id: Option<int>, task: Value, completed: Value) returns (r: Response)
      requires Valid()
      modifies this
      ensures Valid()
      ensures FindIndex(old(todos), id).None? ==> r == NotFound && todos == old(todos)
      ensures FindIndex(old(todos), id).Some? ==>
                var k := FindIndex(old(todos), id).value;
                todos == old(todos)[k := Patch(old(todos)[k], task, completed)]
                && r == Updated(todos[k])
      ensures r.Status() == if r.Updated? then 200 else 404
    {
      match FindIndex(todos, id)
      case None =>
        r := NotFound;
      case Some(k) =>
        PatchKeepsInvariant(todos, k, task, completed);
        todos := todos[k := Patch(todos[k], task, completed)];
        r := Updated(todos[k]);
    }

    /** DELETE /todos/:id. */
    method Delete(id: Option<int>) returns (r: Response)
      requires Valid()
      modifies this
      ensures Valid()
      ensures FindIndex(old(todos), id).None? ==> r == NotFound && todos == old(todos)
      ensures FindIndex(old(todos), id).Some? ==>
                var k := FindIndex(old(todos), id).value;
                todos == RemoveAt(old(todos), k) && r == Deleted([old(todos)[k]])
      ensures r.Status() == if r.Deleted? then 200 else 404
    {
      match FindIndex(todos, id)
      case None =>
        r := NotFound;
      case Some(k) =>
        RemoveKeepsInvariant(todos, k);
        r := Deleted(todos[k..k + 1]);
        todos := RemoveAt(todos, k);
    }
  }

  /** On the seed, listing the completed records yields record 2 alone. */
  lemma SeedCompleted()
    ensures Select(Seed, Some("true")) == [Seed[1]]
  {
    assert Seed[1..] == [Seed[1]] && [Seed[1]][1..] == [];
    assert Filter([Seed[1]], true) == [Seed[1]];
  }

  /** From the seed: list the completed records, then delete record 2 and list
      the whole store, which is then record 1 alone. */
  method Scenario() returns (completedBefore: Response, after: Response)
    ensures completedBefore == Tasks([Task(2, Str("Go to Wegmans"), Bool(true))])
    ensures after == Tasks([Task(1, Str("Plan out dinners"), Bool(false))])
  {
    var store := new Store();
    SeedCompleted();
    completedBefore := store.List(Some("true"));
    assert FindIndex(Seed, Some(2)) == Some(1) by {
      assert FindIndex(Seed[1..], Some(2)) == Some(0);
    }
    var deleted := store.Delete(Some(2));
    assert store.todos == [Seed[0]];
    after := store.List(None);
  }
}
