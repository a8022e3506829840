/**
 * server.js: the in-memory to-do store and its five handlers. Each handler is
 * a method of `Store`; the path id is already parsed (`None` for NaN), the
 * query parameter is an optional string and the body fields are `Value`s.
 */
module TodoServer {
  import opened Wrappers
  import opened Todos

  /** The seed list: both records start incomplete. */
  const Seed: seq<Task> := [
    Task(1, Str("Plan out dinners"), Bool(false)),
    Task(2, Str("Go to Wegmans"), Bool(false))
  ]

  /** What a handler sends back, with the message templates abstracted to the
      values they interpolate. */
  datatype Response =
    | NoItems                                      // list on an empty store
    | NoMatch(filter: string)                      // a filter that matches nothing
    | Listing(tasks: seq<Task>)                    // no query parameter: the bare list
    | FilteredListing(filter: string, tasks: seq<Task>) // a message plus the list
    | NoItemFound                                  // get on an empty store
    | NotFound(id: Option<int>)                    // no record has the path id
    | BadRequest                                   // create without a non-empty string
    | Found(task: Task)
    | Created(task: Task)
    | Updated(task: Task)
    | Deleted(task: Task)
  {
    /** The HTTP status code sent with the response. */
    function Status(): (code: int)
      ensures code == 404 <==> NoItemFound? || NotFound?
      ensures code == 400 <==> BadRequest?
      ensures code == 200 || code == 400 || code == 404
    {
      if NoItemFound? || NotFound? then 404
      else if BadRequest? then 400
      else 200
    }
  }

  lemma SeedInvariant()
    ensures Invariant(Seed)
  {
  }

  class Store {
    var todos: seq<Task>

    ghost predicate Valid()
      reads this
    {
      Invariant(todos)
    }

    /** The store as the module is loaded: the seed list. */
    constructor ()
      ensures Valid() && todos == Seed
    {
      todos := Seed;
    }

    /** GET /todos with the `completed` query parameter. */
    method List(completed: Option<string>) returns (r: Response)
      ensures r.NoItems? <==> todos == []
      ensures r.NoMatch? <==> todos != [] && ParseFilter(completed).Some?
                              && forall t :: t in todos ==> t.completed != Bool(ParseFilter(completed).value)
      ensures r.NoMatch? ==> Some(r.filter) == completed
      ensures r.Listing? <==> todos != [] && completed.None?
      ensures r.Listing? ==> r.tasks == todos
      ensures r.FilteredListing? <==> todos != [] && completed.Some? && Select(todos, completed) != []
      ensures r.FilteredListing? ==> Some(r.filter) == completed && r.tasks == Select(todos, completed)
      ensures r.NoItems? || r.NoMatch? || r.Listing? || r.FilteredListing?
      ensures r.Status() == 200
    {
      if todos == [] {
        return NoItems;
      }
      var shown := Select(todos, completed);
      if shown == [] {
        r := NoMatch(completed.value);
      } else if completed.None? {
        r := Listing(shown);
      } else {
        r := FilteredListing(completed.value, shown);
      }
    }

    /** GET /todos/:id. */
    method Get(id: Option<int>) returns (r: Response)
      requires Valid()
      ensures r.NoItemFound? <==> todos == []
      ensures r.NotFound? <==> todos != [] && forall t :: t in todos ==> !Matches(t, id)
      ensures r.NotFound? ==> r.id == id
      ensures r.Found? ==> r.task in todos && Matches(r.task, id)
      ensures r.Found? ==> forall t :: t in todos && Matches(t, id) ==> t == r.task
      ensures r.NoItemFound? || r.NotFound? || r.Found?
      ensures r.Status() == if r.Found? then 200 else 404
    {
      if todos == [] {
        return NoItemFound;
      }
      match Find(todos, id)
      case None =>
        r := NotFound(id);
      case Some(todo) =>
        var k := FindIndex(todos, id).value;
        forall t | t in todos && Matches(t, id) ensures t == todos[k] {
          var j :| 0 <= j < |todos| && todos[j] == t;
          FirstMatchIsOnlyMatch(todos, id, j);
        }
        r := Found(todo);
    }

    /** POST /todos with body field `task`. */
    method Create(task: Value) returns (r: Response)
      requires Valid()
      modifies this
      ensures Valid()
      ensures !IsTaskText(task) ==> r == BadRequest && todos == old(todos)
      ensures IsTaskText(task) ==> r == Created(NewTodo(old(todos), task.s))
                                   && todos == old(todos) + [r.task]
      ensures r.Status() == if IsTaskText(task) then 200 else 400
    {
      if !IsTaskText(task) {
        return BadRequest;
      }
      var t := NewTodo(todos, task.s);
      todos := todos + [t];
      r := Created(t);
    }

    /** PUT /todos/:id with optional body fields `task` and `completed`. */
    method Update(id: Option<int>, task: Value, completed: Value) returns (r: Response)
      requires Valid()
      modifies this
      ensures Valid()
      ensures FindIndex(old(todos), id).None? ==> r == NotFound(id) && todos == old(todos)
      ensures FindIndex(old(todos), id).Some? ==>
                var k := FindIndex(old(todos), id).value;
                todos == old(todos)[k := Patch(old(todos)[k], task, completed)]
                && r == Updated(todos[k])
      ensures r.Status() == if r.Updated? then 200 else 404
    {
      match FindIndex(todos, id)
      case None =>
        r := NotFound(id);
      case Some(k) =>
        PatchKeepsInvariant(todos, k, task, completed);
        todos := todos[k := Patch(todos[k], task, completed)];
        r := Updated(todos[k]);
    }

    /** DELETE /todos/:id. */
    method Delete(id: Option<int>) returns (r: Response)
      requires Valid()
      modifies this
      ensures Valid()
      ensures FindIndex(old(todos), id).None? ==> r == NotFound(id) && todos == old(todos)
      ensures FindIndex(old(todos), id).Some? ==>
                var k := FindIndex(old(todos), id).value;
                todos == RemoveAt(old(todos), k) && r == Deleted(old(todos)[k])
      ensures r.Status() == if r.Deleted? then 200 else 404
    {
      match FindIndex(todos, id)
      case None =>
        r := NotFound(id);
      case Some(k) =>
        RemoveKeepsInvariant(todos, k);
        r := Deleted(todos[k]);
        todos := RemoveAt(todos, k);
    }
  }

  // The steps of the scenario below, one lemma each.

  const Milk := Task(3, Str("Buy milk"), Bool(false))
  const PlanDone := Task(1, Str("Plan out dinners"), Bool(true))

  lemma CreateStep()
    ensures IsTaskText(Str("Buy milk"))
    ensures Seed + [NewTodo(Seed, "Buy milk")] == [Seed[0], Seed[1], Milk]
  {
    Text.TrimKeepsTrimmed("Buy milk");
    NextIdAfterSeed(Seed);
  }

  lemma UpdateStep(s: seq<Task>)
    requires s == [Seed[0], Seed[1], Milk]
    ensures FindIndex(s, Some(1)) == Some(0)
    ensures s[0 := Patch(s[0], Missing, Bool(true))] == [PlanDone, Seed[1], Milk]
  {
  }

  lemma DeleteStep(s: seq<Task>)
    requires s == [PlanDone, Seed[1], Milk]
    ensures FindIndex(s, Some(2)) == Some(1)
    ensures RemoveAt(s, 1) == [PlanDone, Milk]
  {
    assert s[1..] == [Seed[1], Milk];
  }

  lemma ListStep(s: seq<Task>)
    requires s == [PlanDone, Milk]
    ensures Select(s, Some("false")) == [Milk]
  {
    assert s[1..] == [Milk] && [Milk][1..] == [];
    assert Filter([Milk], false) == [Milk];
    assert Filter(s, false) == [Milk];
  }

  /** From the seed: create "Buy milk" (id 3), mark record 1 completed, delete
      record 2, then list the incomplete records: only the new one is left. */
  method Scenario() returns (r: Response)
    ensures r == FilteredListing("false", [Task(3, Str("Buy milk"), Bool(false))])
  {
    var store := new Store();
    CreateStep();
    var created := store.Create(Str("Buy milk"));
    UpdateStep(store.todos);
    var updated := store.Update(Some(1), Missing, Bool(true));
    DeleteStep(store.todos);
    var deleted := store.Delete(Some(2));
    ListStep(store.todos);
    r := store.List(Some("false"));
  }
}
