/**
 * The read-only parts of the category handlers: `getCategories`, the
 * ownership check of `deleteCategory`, and what its cascade does to the
 * todo table, as functions of the stored tables.
 */
module Categories {
  import opened Schema
  import Tables
  import Todos

  /** A listed category: the stored document and its id. */
  datatype CategoryView = CategoryView(id: CategoryId, category: Category)

  /** The ids of all categories of user `u`. */
  function OwnedCategories(categories: map<CategoryId, Category>, u: UserId): set<CategoryId>
  {
    set id | id in categories && categories[id].userId == u
  }

  function CategoryIds(vs: seq<CategoryView>): (ids: seq<CategoryId>)
    ensures |ids| == |vs| && forall i :: 0 <= i < |vs| ==> ids[i] == vs[i].id
  {
    seq(|vs|, i requires 0 <= i < |vs| => vs[i].id)
  }

  /**
   * `getCategories`: the `by_user` index scan of the caller's categories,
   * returned as collected: in ascending id order, which is creation order.
   */
  function GetCategories(categories: map<CategoryId, Category>, caller: Option<UserId>): (r: Result<seq<CategoryView>>)
    ensures r.Ok? <==> caller.Some?
    ensures caller.None? ==> r == Err(NotAuthenticated)
    ensures r.Ok? ==> multiset(CategoryIds(r.value)) == multiset(OwnedCategories(categories, caller.value))
    ensures r.Ok? ==> forall i :: 0 <= i < |r.value| ==>
              r.value[i].id in categories && r.value[i].category == categories[r.value[i].id]
    ensures r.Ok? ==> forall i, j :: 0 <= i < j < |r.value| ==> r.value[i].id < r.value[j].id
  {
    if caller.None? then Err(NotAuthenticated)
    else
      var ids := Tables.Ascending(OwnedCategories(categories, caller.value));
      assert forall i :: 0 <= i < |ids| ==> ids[i] in ids;
      Ok(Documents(categories, ids))
  }

  /** The stored documents with the given ids, in that order. */
  function Documents(categories: map<CategoryId, Category>, ids: seq<CategoryId>): (vs: seq<CategoryView>)
    requires forall i :: 0 <= i < |ids| ==> ids[i] in categories
    ensures CategoryIds(vs) == ids
    ensures forall i :: 0 <= i < |vs| ==> vs[i].id in categories && vs[i].category == categories[vs[i].id]
  {
    var vs := seq(|ids|, i requires 0 <= i < |ids| => CategoryView(ids[i], categories[ids[i]]));
    assert CategoryIds(vs) == ids;
    vs
  }

  /** `getCategories` lists a category exactly when the caller owns it. */
  lemma ListsExactlyOwnCategories(categories: map<CategoryId, Category>, u: UserId, id: CategoryId)
    ensures GetCategories(categories, Some(u)).Ok?
    ensures var vs := GetCategories(categories, Some(u)).value;
            (exists i :: 0 <= i < |vs| && vs[i].id == id) <==> id in categories && categories[id].userId == u
  {
    var vs := GetCategories(categories, Some(u)).value;
    var ids := CategoryIds(vs);
    if id in categories && categories[id].userId == u {
      assert id in multiset(ids);
      var i :| 0 <= i < |ids| && ids[i] == id;
      assert vs[i].id == id;
    }
    if exists i :: 0 <= i < |vs| && vs[i].id == id {
      var i :| 0 <= i < |vs| && vs[i].id == id;
      assert ids[i] in multiset(ids);
    }
  }

  /**
   * The two checks `deleteCategory` starts with: a caller must be signed in,
   * and the category must exist and be theirs. A missing category and another
   * user's category give the same error.
   */
  function CategoryGuard(categories: map<CategoryId, Category>, caller: Option<UserId>, id: CategoryId): (r: Result<()>)
    ensures r.Ok? <==> caller.Some? && id in categories && categories[id].userId == caller.value
    ensures caller.None? ==> r == Err(NotAuthenticated)
    ensures caller.Some? && r.Err? ==> r == Err(CategoryNotFoundOrUnauthorized)
  {
    if caller.None? then Err(NotAuthenticated)
    else if id !in categories || categories[id].userId != caller.value then Err(CategoryNotFoundOrUnauthorized)
    else Ok(())
  }

  /** The patch `{ categoryId: undefined }`: the todo loses its category and nothing else. */
  function Uncategorized(t: Todo): (r: Todo)
    ensures r.categoryId.None?
    ensures r.(categoryId := t.categoryId) == t
  {
    t.(categoryId := None)
  }

  /**
   * The todo table once the cascade of `deleteCategory(c)` has run: every
   * todo that named `c`, whoever owns it, has lost its category.
   */
  function ClearCategory(todos: map<TodoId, Todo>, c: CategoryId): (r: map<TodoId, Todo>)
    ensures r.Keys == todos.Keys
    ensures forall id :: id in r ==> r[id].categoryId != Some(c)
    ensures forall id :: id in todos && todos[id].categoryId != Some(c) ==> r[id] == todos[id]
    ensures forall id :: id in todos && todos[id].categoryId == Some(c) ==> r[id] == Uncategorized(todos[id])
  {
    map id | id in todos :: if todos[id].categoryId == Some(c) then Uncategorized(todos[id]) else todos[id]
  }

  /** The `by_category` index scan: every todo that names `c`, whoever owns it, each once. */
  function TodosInCategory(todos: map<TodoId, Todo>, c: CategoryId): (ids: seq<TodoId>)
    ensures forall t :: t in ids <==> t in todos && todos[t].categoryId == Some(c)
    ensures forall i, j :: 0 <= i < j < |ids| ==> ids[i] != ids[j]
  {
    Tables.Ascending(set t | t in todos && todos[t].categoryId == Some(c))
  }

  /** The table with exactly the todos in `refs` patched with `{ categoryId: undefined }`. */
  function ClearedIn(todos: map<TodoId, Todo>, refs: set<TodoId>): (r: map<TodoId, Todo>)
    ensures r.Keys == todos.Keys
    ensures forall id :: id in todos && id !in refs ==> r[id] == todos[id]
  {
    map id | id in todos :: if id in refs then Uncategorized(todos[id]) else todos[id]
  }

  /** Patching one more todo of the table adds it to the patched ones. */
  lemma ClearOneMore(todos: map<TodoId, Todo>, refs: set<TodoId>, t: TodoId)
    requires t in todos && t !in refs
    ensures ClearedIn(todos, refs)[t := Uncategorized(todos[t])] == ClearedIn(todos, refs + {t})
  {
  }

  /** Patching exactly the todos that name `c` is the cascade. */
  lemma CascadeComplete(before: map<TodoId, Todo>, c: CategoryId, refs: set<TodoId>)
    requires forall t :: t in refs <==> t in before && before[t].categoryId == Some(c)
    ensures ClearedIn(before, refs) == ClearCategory(before, c)
  {
  }

  /** Every category a todo names exists. */
  predicate NoDanglingCategory(todos: map<TodoId, Todo>, categories: map<CategoryId, Category>)
  {
    forall id :: id in todos && todos[id].categoryId.Some? ==> todos[id].categoryId.value in categories
  }

  /**
   * Clearing the references before deleting the category keeps every
   * category reference pointing at a stored category.
   */
  lemma CascadeKeepsReferencesValid(todos: map<TodoId, Todo>, categories: map<CategoryId, Category>, c: CategoryId)
    requires NoDanglingCategory(todos, categories)
    ensures NoDanglingCategory(ClearCategory(todos, c), categories - {c})
  {
    var todos' := ClearCategory(todos, c);
    forall id | id in todos' && todos'[id].categoryId.Some?
      ensures todos'[id].categoryId.value in categories - {c}
    {
      assert todos'[id].categoryId == todos[id].categoryId;
    }
  }

  /** Deleting the category without the cascade leaves the todos that named it dangling. */
  lemma DeleteWithoutCascadeDangles(todos: map<TodoId, Todo>, categories: map<CategoryId, Category>, c: CategoryId, id: TodoId)
    requires id in todos && todos[id].categoryId == Some(c)
    ensures !NoDanglingCategory(todos, categories - {c})
  {
  }

  /** The cascade changes no count of `getTodoStats`, for any caller. */
  lemma CascadeKeepsStats(todos: map<TodoId, Todo>, c: CategoryId, caller: Option<UserId>)
    ensures Todos.GetTodoStats(ClearCategory(todos, c), caller) == Todos.GetTodoStats(todos, caller)
  {
    if caller.Some? {
      var u, todos' := caller.value, ClearCategory(todos, c);
      assert Todos.Owned(todos', u) == Todos.Owned(todos, u);
      SameOwnedWhere(todos, c, u, Todos.IsCompleted);
      SameOwnedWhere(todos, c, u, Todos.IsPending);
      SameOwnedWhere(todos, c, u, Todos.IsUrgent);
    }
  }

  lemma SameOwnedWhere(todos: map<TodoId, Todo>, c: CategoryId, u: UserId, q: Todo -> bool)
    requires forall t: Todo :: q(t) == q(Uncategorized(t))
    ensures Todos.OwnedWhere(ClearCategory(todos, c), u, q) == Todos.OwnedWhere(todos, u, q)
  {
    var todos' := ClearCategory(todos, c);
    forall id | id in todos ensures todos'[id].userId == todos[id].userId && q(todos'[id]) == q(todos[id]) {
      if todos[id].categoryId == Some(c) {
        assert q(todos'[id]) == q(Uncategorized(todos[id]));
      }
    }
  }

  /** Once the cascade has run, listing the todos of the deleted category yields nothing. */
  lemma NothingListedUnderDeletedCategory(todos: map<TodoId, Todo>, categories: map<CategoryId, Category>,
                                          c: CategoryId, u: UserId, completed: Option<bool>)
    ensures Todos.GetTodos(ClearCategory(todos, c), categories - {c}, Some(u), Todos.TodoFilter(completed, Some(c))) == Ok([])
  {
    var f := Todos.TodoFilter(completed, Some(c));
    var todos' := ClearCategory(todos, c);
    assert Todos.Selected(todos', u, f) == {};
    var vs := Todos.GetTodos(todos', categories - {c}, Some(u), f).value;
    assert |multiset(Todos.IdsOf(vs))| == 0;
  }
}
