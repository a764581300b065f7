/**
 * The document store the handlers run against, with the mutations of
 * todos.ts and categories.ts as methods. Each method is one transaction:
 * it either throws before writing anything or makes all of its writes.
 */
module Store {
  import opened Schema
  import Todos
  import Categories

  class TodoStore {
    /** The `todos` table, by document id. */
    var todos: map<TodoId, Todo>
    /** The `categories` table, by document id. */
    var categories: map<CategoryId, Category>
    /** Issues document ids and creation times; never goes back. */
    var clock: nat

    /** The store's invariant: see Stamped. */
    ghost predicate Valid()
      reads this
    {
      Stamped(todos, categories, clock)
    }

    constructor ()
      ensures Valid()
      ensures todos == map[] && categories == map[] && clock == 0
    {
      todos := map[];
      categories := map[];
      clock := 0;
    }

    /** `createTodo`: inserts a new, not completed todo owned by the caller. */
    method CreateTodo(caller: Option<UserId>, args: Todos.NewTodo) returns (r: Result<TodoId>)
      requires Valid()
      modifies this
      ensures Valid()
      ensures caller.None? ==> r == Err(NotAuthenticated) && unchanged(this)
      ensures caller.Some? ==> r.Ok? && r.value !in old(todos)
      ensures caller.Some? ==>
                && todos == old(todos)[r.value := Todos.Created(args, caller.value, old(clock))]
                && categories == old(categories)
                && clock == old(clock) + 1
    {
      if caller.None? {
        return Err(NotAuthenticated);
      }
      var id := clock;
      todos := todos[id := Todos.Created(args, caller.value, id)];
      clock := clock + 1;
      return Ok(id);
    }

    /** `toggleTodo`: flips `completed` of one of the caller's todos. */
    method ToggleTodo(caller: Option<UserId>, id: TodoId) returns (r: Result<()>)
      requires Valid()
      modifies this
      ensures Valid()
      ensures r.Err? ==> r == Todos.TodoGuard(old(todos), caller, id) && unchanged(this)
      ensures r.Ok? <==> Todos.TodoGuard(old(todos), caller, id).Ok?
      ensures r.Ok? ==>
                && todos == old(todos)[id := Todos.Toggled(old(todos)[id])]
                && categories == old(categories)
                && clock == old(clock)
    {
      r := Todos.TodoGuard(todos, caller, id);
      if r.Err? {
        return;
      }
      todos := todos[id := Todos.Toggled(todos[id])];
    }

    /** `updateTodo`: a sparse patch of one of the caller's todos. */
    method UpdateTodo(caller: Option<UserId>, id: TodoId, patch: Todos.TodoPatch) returns (r: Result<()>)
      requires Valid()
      modifies this
      ensures Valid()
      ensures r.Err? ==> r == Todos.TodoGuard(old(todos), caller, id) && unchanged(this)
      ensures r.Ok? <==> Todos.TodoGuard(old(todos), caller, id).Ok?
      ensures r.Ok? ==>
                && todos == old(todos)[id := Todos.Patched(old(todos)[id], patch)]
                && categories == old(categories)
                && clock == old(clock)
    {
      r := Todos.TodoGuard(todos, caller, id);
      if r.Err? {
        return;
      }
      todos := todos[id := Todos.Patched(todos[id], patch)];
    }

    /** `deleteTodo`: removes one of the caller's todos. */
    method DeleteTodo(caller: Option<UserId>, id: TodoId) returns (r: Result<()>)
      requires Valid()
      modifies this
      ensures Valid()
      ensures r.Err? ==> r == Todos.TodoGuard(old(todos), caller, id) && unchanged(this)
      ensures r.Ok? <==> Todos.TodoGuard(old(todos), caller, id).Ok?
      ensures r.Ok? ==>
                && todos == old(todos) - {id}
                && categories == old(categories)
                && clock == old(clock)
    {
      r := Todos.TodoGuard(todos, caller, id);
      if r.Err? {
        return;
      }
      todos := todos - {id};
    }

    /** `createCategory`: inserts a category owned by the caller, name and color as given. */
    method CreateCategory(caller: Option<UserId>, name: string, color: string) returns (r: Result<CategoryId>)
      requires Valid()
      modifies this
      ensures Valid()
      ensures caller.None? ==> r == Err(NotAuthenticated) && unchanged(this)
      ensures caller.Some? ==> r.Ok? && r.value !in old(categories)
      ensures caller.Some? ==>
                && categories == old(categories)[r.value := Category(name, color, caller.value)]
                && todos == old(todos)
                && clock == old(clock) + 1
    {
      if caller.None? {
        return Err(NotAuthenticated);
      }
      var id := clock;
      categories := categories[id := Category(name, color, caller.value)];
      clock := clock + 1;
      return Ok(id);
    }

    /**
     * `deleteCategory`: after the ownership check, clears `categoryId` on
     * every todo that names the category, then deletes the category.
     */
    method DeleteCategory(caller: Option<UserId>, id: CategoryId) returns (r: Result<()>)
      requires Valid()
      modifies this
      ensures Valid()
      ensures r.Err? ==> r == Categories.CategoryGuard(old(categories), caller, id) && unchanged(this)
      ensures r.Ok? <==> Categories.CategoryGuard(old(categories), caller, id).Ok?
      ensures r.Ok? ==>
                && todos == Categories.ClearCategory(old(todos), id)
                && categories == old(categories) - {id}
                && clock == old(clock)
    {
      r := Categories.CategoryGuard(categories, caller, id);
      if r.Err? {
        return;
      }
      ClearReferences(id);
      CascadeKeepsStamps(old(todos), categories, clock, id);
      categories := categories - {id};
    }

    /**
     * The cascade of `deleteCategory`: patches `{ categoryId: undefined }`
     * into every todo the `by_category` scan finds, one todo at a time.
     */
    method ClearReferences(c: CategoryId)
      modifies this
      ensures todos == Categories.ClearCategory(old(todos), c)
      ensures categories == old(categories) && clock == old(clock)
    {
      var refs := Categories.TodosInCategory(todos, c);
      ghost var patched: set<TodoId> := {};
      var i := 0;
      while i < |refs|
        invariant i <= |refs| && Visited(old(todos), refs, i, patched, todos)
        invariant categories == old(categories) && clock == old(clock)
      {
        var t := refs[i];
        VisitNext(old(todos), refs, i, patched, todos);
        todos := todos[t := Categories.Uncategorized(todos[t])];
        patched := patched + {t};
        i := i + 1;
      }
      VisitedAll(old(todos), c, refs, patched, todos);
    }
  }

  /**
   * The cascade loop after `i` steps: the todos `refs[..i]` form `patched`,
   * they carry no category, and every other todo is as before.
   */
  ghost predicate Visited(before: map<TodoId, Todo>, refs: seq<TodoId>, i: nat, patched: set<TodoId>,
                          todos: map<TodoId, Todo>)
  {
    && i <= |refs|
    && (forall k :: 0 <= k < |refs| ==> (refs[k] in patched <==> k < i))
    && (forall t :: t in patched ==> t in refs)
    && todos == Categories.ClearedIn(before, patched)
  }

  /** One more step of the cascade loop keeps `Visited`. */
  lemma VisitNext(before: map<TodoId, Todo>, refs: seq<TodoId>, i: nat, patched: set<TodoId>,
                  todos: map<TodoId, Todo>)
    requires i < |refs| && refs[i] in before
    requires forall j :: 0 <= j < |refs| && j != i ==> refs[j] != refs[i]
    requires Visited(before, refs, i, patched, todos)
    ensures refs[i] in todos && todos[refs[i]] == before[refs[i]]
    ensures Visited(before, refs, i + 1, patched + {refs[i]},
                    todos[refs[i] := Categories.Uncategorized(todos[refs[i]])])
  {
    Categories.ClearOneMore(before, patched, refs[i]);
  }

  /** Once every todo of the scan is visited, the table is the cascaded table. */
  lemma VisitedAll(before: map<TodoId, Todo>, c: CategoryId, refs: seq<TodoId>, patched: set<TodoId>,
                   todos: map<TodoId, Todo>)
    requires forall t :: t in refs <==> t in before && before[t].categoryId == Some(c)
    requires Visited(before, refs, |refs|, patched, todos)
    ensures todos == Categories.ClearCategory(before, c)
  {
    Categories.CascadeComplete(before, c, patched);
  }

  /**
   * Every stored id is below the clock, so the next id is fresh, and a
   * todo's creation time is the tick it was inserted at.
   */
  ghost predicate Stamped(todos: map<TodoId, Todo>, categories: map<CategoryId, Category>, clock: nat)
  {
    && (forall id :: id in todos ==> id < clock && todos[id].creationTime == id)
    && (forall id :: id in categories ==> id < clock)
  }

  lemma CascadeKeepsStamps(todos: map<TodoId, Todo>, categories: map<CategoryId, Category>, clock: nat, c: CategoryId)
    requires Stamped(todos, categories, clock)
    ensures Stamped(Categories.ClearCategory(todos, c), categories - {c}, clock)
  {
    var todos' := Categories.ClearCategory(todos, c);
    forall id | id in todos' ensures todos'[id].creationTime == todos[id].creationTime {
      if todos[id].categoryId == Some(c) {
        assert todos'[id] == Categories.Uncategorized(todos[id]);
      }
    }
  }

  /** Toggling the same todo twice leaves the store as it was. */
  method ToggleTwice(store: TodoStore, caller: Option<UserId>, id: TodoId)
    requires store.Valid()
    modifies store
    ensures store.Valid()
    ensures store.todos == old(store.todos) && store.categories == old(store.categories)
  {
    var first := store.ToggleTodo(caller, id);
    var second := store.ToggleTodo(caller, id);
    if first.Ok? {
      Todos.ToggleInvolution(old(store.todos)[id]);
      assert store.todos == old(store.todos)[id := old(store.todos)[id]];
    }
  }
}
