/**
 * The two read-only handlers of the todo table: `getTodos` (index scan,
 * category filter, category lookup, sort) and `getTodoStats` (four counts),
 * as functions of the stored tables and the caller.
 */
module Todos {
  import opened Schema
  import Tables

  /** The optional arguments of `getTodos`. */
  datatype TodoFilter = TodoFilter(completed: Option<bool>, categoryId: Option<CategoryId>)

  /** A listed todo: the stored document, its id and the category it resolves to. */
  datatype TodoView = TodoView(id: TodoId, todo: Todo, category: Option<Category>)

  datatype TodoStats = TodoStats(total: nat, completed: nat, pending: nat, highPriority: nat)

  /** A todo passes the filter: every argument that is given must match. */
  predicate Matches(t: Todo, f: TodoFilter)
  {
    && (f.completed.None? || t.completed == f.completed.value)
    && (f.categoryId.None? || t.categoryId == f.categoryId)
  }

  /** The ids of the todos `getTodos` must list for user `u`. */
  function Selected(todos: map<TodoId, Todo>, u: UserId, f: TodoFilter): set<TodoId>
  {
    set id | id in todos && todos[id].userId == u && Matches(todos[id], f)
  }

  /** The todos an index lookup on the user, and optionally the completion state, selects. */
  function IndexKeys(todos: map<TodoId, Todo>, u: UserId, completed: Option<bool>): set<TodoId>
  {
    set id | id in todos && todos[id].userId == u && (completed.None? || todos[id].completed == completed.value)
  }

  /** The ids of all todos of user `u`: the `by_user` index. */
  function Owned(todos: map<TodoId, Todo>, u: UserId): set<TodoId>
  {
    IndexKeys(todos, u, None)
  }

  /**
   * The index scan `getTodos` starts with: `by_user_and_completed` when a
   * completion state is given, `by_user` otherwise.
   */
  function IndexScan(todos: map<TodoId, Todo>, u: UserId, completed: Option<bool>): (ids: seq<TodoId>)
    ensures forall i :: 0 <= i < |ids| ==> ids[i] in IndexKeys(todos, u, completed)
    ensures multiset(ids) == multiset(IndexKeys(todos, u, completed))
  {
    var ids := Tables.Ascending(IndexKeys(todos, u, completed));
    assert forall i :: 0 <= i < |ids| ==> ids[i] in ids;
    ids
  }

  /** `ctx.db.get` on an optional category id: absent id or missing document give None. */
  function LookupCategory(categories: map<CategoryId, Category>, c: Option<CategoryId>): (r: Option<Category>)
    ensures r.Some? <==> c.Some? && c.value in categories
    ensures r.Some? ==> r.value == categories[c.value]
  {
    if c.Some? && c.value in categories then Some(categories[c.value]) else None
  }

  /** `{ ...todo, category }` for the stored todo `id`. */
  function Enrich(todos: map<TodoId, Todo>, categories: map<CategoryId, Category>, id: TodoId): (v: TodoView)
    requires id in todos
    ensures v.id == id && v.todo == todos[id]
    ensures v.category == LookupCategory(categories, todos[id].categoryId)
  {
    TodoView(id, todos[id], LookupCategory(categories, todos[id].categoryId))
  }

  function IdsOf(vs: seq<TodoView>): (ids: seq<TodoId>)
    ensures |ids| == |vs|
    ensures forall i :: 0 <= i < |vs| ==> ids[i] == vs[i].id
  {
    if vs == [] then [] else [vs[0].id] + IdsOf(vs[1..])
  }

  /**
   * `a` may be listed before `b`: higher priority first, and within one
   * priority the newer todo first.
   */
  predicate ListedBefore(a: TodoView, b: TodoView)
    ensures ListedBefore(a, b) <==> Comparator(a, b) <= 0
  {
    var ra, rb := Rank(a.todo.priority), Rank(b.todo.priority);
    ra > rb || (ra == rb && a.todo.creationTime >= b.todo.creationTime)
  }

  /**
   * The comparator handed to `sort`: negative when `a` goes first, positive
   * when `b` goes first, zero when the two may stand in either order.
   */
  function Comparator(a: TodoView, b: TodoView): int
  {
    var priorityDiff := Rank(b.todo.priority) - Rank(a.todo.priority);
    if priorityDiff != 0 then priorityDiff else b.todo.creationTime - a.todo.creationTime
  }

  predicate SortedForListing(vs: seq<TodoView>)
  {
    forall i, j :: 0 <= i < j < |vs| ==> ListedBefore(vs[i], vs[j])
  }

  lemma ListedBeforeTotal(a: TodoView, b: TodoView)
    ensures ListedBefore(a, b) || ListedBefore(b, a)
  {
  }

  /** Puts `v` in front of the first element it may precede. */
  function Insert(v: TodoView, vs: seq<TodoView>): (r: seq<TodoView>)
    requires SortedForListing(vs)
    ensures SortedForListing(r)
    ensures multiset(r) == multiset(vs) + multiset{v}
    ensures multiset(IdsOf(r)) == multiset(IdsOf(vs)) + multiset{v.id}
  {
    if vs == [] then [v]
    else if ListedBefore(v, vs[0]) then
      InsertFront(v, vs);
      [v] + vs
    else
      var rest := Insert(v, vs[1..]);
      InsertBehind(v, vs, rest);
      InsertBehindIds(v, vs, rest);
      [vs[0]] + rest
  }

  lemma InsertFront(v: TodoView, vs: seq<TodoView>)
    requires vs != [] && SortedForListing(vs) && ListedBefore(v, vs[0])
    ensures SortedForListing([v] + vs)
    ensures multiset(IdsOf([v] + vs)) == multiset(IdsOf(vs)) + multiset{v.id}
  {
    IdsOfPrepend(v, vs);
    forall k | 0 <= k < |vs| ensures ListedBefore(v, vs[k]) {
      if k > 0 {
        assert ListedBefore(vs[0], vs[k]);
      }
    }
    SortedPrepend(v, vs);
  }

  lemma InsertBehind(v: TodoView, vs: seq<TodoView>, rest: seq<TodoView>)
    requires vs != [] && SortedForListing(vs) && !ListedBefore(v, vs[0])
    requires SortedForListing(rest)
    requires multiset(rest) == multiset(vs[1..]) + multiset{v}
    ensures SortedForListing([vs[0]] + rest)
    ensures multiset([vs[0]] + rest) == multiset(vs) + multiset{v}
  {
    assert vs == [vs[0]] + vs[1..];
    PrependMultiset(vs[0], vs[1..], rest, v);
    FirstPrecedesRest(v, vs, rest);
    SortedPrepend(vs[0], rest);
  }

  lemma InsertBehindIds(v: TodoView, vs: seq<TodoView>, rest: seq<TodoView>)
    requires vs != []
    requires multiset(IdsOf(rest)) == multiset(IdsOf(vs[1..])) + multiset{v.id}
    ensures multiset(IdsOf([vs[0]] + rest)) == multiset(IdsOf(vs)) + multiset{v.id}
  {
    assert vs == [vs[0]] + vs[1..];
    IdsOfPrepend(vs[0], rest);
    IdsOfPrepend(vs[0], vs[1..]);
    PrependMultiset(vs[0].id, IdsOf(vs[1..]), IdsOf(rest), v.id);
  }

  lemma IdsOfPrepend(x: TodoView, vs: seq<TodoView>)
    ensures IdsOf([x] + vs) == [x.id] + IdsOf(vs)
  {
    assert ([x] + vs)[1..] == vs;
  }

  lemma SortedPrepend(x: TodoView, vs: seq<TodoView>)
    requires SortedForListing(vs)
    requires forall k :: 0 <= k < |vs| ==> ListedBefore(x, vs[k])
    ensures SortedForListing([x] + vs)
  {
    var r := [x] + vs;
    forall i, j | 0 <= i < j < |r| ensures ListedBefore(r[i], r[j]) {
      if i == 0 {
        assert r[j] == vs[j - 1];
      } else {
        assert r[i] == vs[i - 1] && r[j] == vs[j - 1];
      }
    }
  }

  lemma PrependMultiset<T>(x: T, tail: seq<T>, rest: seq<T>, y: T)
    requires multiset(rest) == multiset(tail) + multiset{y}
    ensures multiset([x] + rest) == multiset([x] + tail) + multiset{y}
  {
  }

  lemma FirstPrecedesRest(v: TodoView, vs: seq<TodoView>, rest: seq<TodoView>)
    requires vs != [] && SortedForListing(vs) && !ListedBefore(v, vs[0])
    requires multiset(rest) == multiset(vs[1..]) + multiset{v}
    ensures forall k :: 0 <= k < |rest| ==> ListedBefore(vs[0], rest[k])
  {
    ListedBeforeTotal(v, vs[0]);
    forall k | 0 <= k < |rest| ensures ListedBefore(vs[0], rest[k]) {
      assert rest[k] in multiset(rest);
      if rest[k] != v {
        assert rest[k] in multiset(vs[1..]);
        var m :| 0 <= m < |vs[1..]| && vs[1..][m] == rest[k];
        assert vs[m + 1] == rest[k];
      }
    }
  }

  /**
   * The comparator sort of `getTodos`: priority descending, then creation
   * time descending.
   */
  function SortForListing(vs: seq<TodoView>): (r: seq<TodoView>)
    ensures SortedForListing(r)
    ensures multiset(r) == multiset(vs)
    ensures multiset(IdsOf(r)) == multiset(IdsOf(vs))
  {
    if vs == [] then []
    else
      assert vs == [vs[0]] + vs[1..];
      assert IdsOf(vs) == [vs[0].id] + IdsOf(vs[1..]);
      Insert(vs[0], SortForListing(vs[1..]))
  }

  /**
   * `getTodos`: the caller's todos that pass the filter, each with its
   * category, highest priority and newest first.
   */
  function GetTodos(todos: map<TodoId, Todo>, categories: map<CategoryId, Category>,
                    caller: Option<UserId>, f: TodoFilter): (r: Result<seq<TodoView>>)
    ensures r.Ok? <==> caller.Some?
    ensures caller.None? ==> r == Err(NotAuthenticated)
    ensures r.Ok? ==> multiset(IdsOf(r.value)) == multiset(Selected(todos, caller.value, f))
    ensures r.Ok? ==> forall i :: 0 <= i < |r.value| ==>
              r.value[i].id in todos && r.value[i] == Enrich(todos, categories, r.value[i].id)
    ensures r.Ok? ==> SortedForListing(r.value)
  {
    if caller.None? then Err(NotAuthenticated)
    else
      var kept := FilterCategory(todos, caller.value, f, IndexScan(todos, caller.value, f.completed));
      var views := EnrichAll(todos, categories, kept);
      var sorted := SortForListing(views);
      SortedViewsAreEnriched(todos, categories, kept, views, sorted);
      Ok(sorted)
  }

  /** `todos.filter(todo => todo.categoryId === args.categoryId)` when a category is given. */
  function FilterCategory(todos: map<TodoId, Todo>, u: UserId, f: TodoFilter, scanned: seq<TodoId>): (kept: seq<TodoId>)
    requires multiset(scanned) == multiset(IndexKeys(todos, u, f.completed))
    ensures forall i :: 0 <= i < |kept| ==> kept[i] in todos
    ensures multiset(kept) == multiset(Selected(todos, u, f))
  {
    var inCategory := id => id in todos && todos[id].categoryId == f.categoryId;
    var kept := if f.categoryId.Some? then Tables.Filter(scanned, inCategory) else scanned;
    ListingSelectsExactly(todos, u, f, scanned, inCategory, kept);
    KeptAreStored(todos, u, f, kept);
    kept
  }

  /** `todos.map(todo => ({ ...todo, category }))` */
  function EnrichAll(todos: map<TodoId, Todo>, categories: map<CategoryId, Category>, ids: seq<TodoId>): (vs: seq<TodoView>)
    requires forall i :: 0 <= i < |ids| ==> ids[i] in todos
    ensures |vs| == |ids| && forall i :: 0 <= i < |ids| ==> vs[i] == Enrich(todos, categories, ids[i])
  {
    seq(|ids|, i requires 0 <= i < |ids| => Enrich(todos, categories, ids[i]))
  }

  lemma KeptAreStored(todos: map<TodoId, Todo>, u: UserId, f: TodoFilter, kept: seq<TodoId>)
    requires multiset(kept) == multiset(Selected(todos, u, f))
    ensures forall i :: 0 <= i < |kept| ==> kept[i] in todos
  {
    forall i | 0 <= i < |kept| ensures kept[i] in todos {
      assert kept[i] in multiset(kept);
    }
  }

  lemma SortedViewsAreEnriched(todos: map<TodoId, Todo>, categories: map<CategoryId, Category>,
                               kept: seq<TodoId>, views: seq<TodoView>, sorted: seq<TodoView>)
    requires forall i :: 0 <= i < |kept| ==> kept[i] in todos
    requires |views| == |kept| && forall i :: 0 <= i < |kept| ==> views[i] == Enrich(todos, categories, kept[i])
    requires multiset(sorted) == multiset(views)
    requires multiset(IdsOf(sorted)) == multiset(IdsOf(views))
    ensures multiset(IdsOf(sorted)) == multiset(kept)
    ensures forall i :: 0 <= i < |sorted| ==>
              sorted[i].id in todos && sorted[i] == Enrich(todos, categories, sorted[i].id)
  {
    assert IdsOf(views) == kept;
    forall i | 0 <= i < |sorted|
      ensures sorted[i].id in todos && sorted[i] == Enrich(todos, categories, sorted[i].id)
    {
      assert sorted[i] in multiset(views);
      var k :| 0 <= k < |views| && views[k] == sorted[i];
    }
  }

  /** Every listed entry is the stored todo its id names, with its category. */
  predicate AllEnriched(todos: map<TodoId, Todo>, categories: map<CategoryId, Category>, vs: seq<TodoView>)
  {
    forall i :: 0 <= i < |vs| ==> vs[i].id in todos && vs[i] == Enrich(todos, categories, vs[i].id)
  }

  /**
   * When creation times are distinct (here: a todo's creation time is its
   * id), two sorted listings of the same todos are the same list.
   */
  lemma {:induction false} SortedUnique(todos: map<TodoId, Todo>, categories: map<CategoryId, Category>,
                                        a: seq<TodoView>, b: seq<TodoView>)
    requires forall id :: id in todos ==> todos[id].creationTime == id
    requires AllEnriched(todos, categories, a) && AllEnriched(todos, categories, b)
    requires SortedForListing(a) && SortedForListing(b)
    requires multiset(IdsOf(a)) == multiset(IdsOf(b))
    ensures a == b
  {
    if a != [] {
      SameHead(todos, categories, a, b);
      SameTailIds(a, b);
      TailKeeps(todos, categories, a);
      TailKeeps(todos, categories, b);
      SortedUnique(todos, categories, a[1..], b[1..]);
    }
  }

  /** Lists with the same head and the same ids have tails with the same ids. */
  lemma SameTailIds(a: seq<TodoView>, b: seq<TodoView>)
    requires a != [] && b != [] && a[0] == b[0]
    requires multiset(IdsOf(a)) == multiset(IdsOf(b))
    ensures multiset(IdsOf(a[1..])) == multiset(IdsOf(b[1..]))
  {
    HeadAndTailIds(a);
    HeadAndTailIds(b);
    CancelOne(a[0].id, multiset(IdsOf(a[1..])), multiset(IdsOf(b[1..])));
  }

  lemma CancelOne<T>(x: T, m1: multiset<T>, m2: multiset<T>)
    requires multiset{x} + m1 == multiset{x} + m2
    ensures m1 == m2
  {
    assert m1 == (multiset{x} + m1) - multiset{x};
    assert m2 == (multiset{x} + m2) - multiset{x};
  }

  lemma HeadAndTailIds(a: seq<TodoView>)
    requires a != []
    ensures multiset(IdsOf(a)) == multiset{a[0].id} + multiset(IdsOf(a[1..]))
  {
    assert IdsOf(a) == [a[0].id] + IdsOf(a[1..]);
  }

  /** The tail of an enriched, sorted listing is enriched and sorted. */
  lemma TailKeeps(todos: map<TodoId, Todo>, categories: map<CategoryId, Category>, a: seq<TodoView>)
    requires a != []
    requires AllEnriched(todos, categories, a) && SortedForListing(a)
    ensures AllEnriched(todos, categories, a[1..]) && SortedForListing(a[1..])
  {
    forall i | 0 <= i < |a[1..]| ensures a[1..][i] == a[i + 1] { }
  }

  /** Both sorted listings start with the same todo: the first in the order. */
  lemma SameHead(todos: map<TodoId, Todo>, categories: map<CategoryId, Category>,
                 a: seq<TodoView>, b: seq<TodoView>)
    requires forall id :: id in todos ==> todos[id].creationTime == id
    requires AllEnriched(todos, categories, a) && AllEnriched(todos, categories, b)
    requires SortedForListing(a) && SortedForListing(b)
    requires multiset(IdsOf(a)) == multiset(IdsOf(b))
    requires a != []
    ensures b != [] && a[0] == b[0]
  {
    assert IdsOf(a)[0] == a[0].id;
    var k := PositionOf(a[0], b);
    assert b[k] == a[0];
    assert IdsOf(b)[0] == b[0].id;
    var m := PositionOf(b[0], a);
    assert a[m] == b[0];
    assert ListedBefore(b[0], a[0]) by {
      if k > 0 {
        assert ListedBefore(b[0], b[k]);
      }
    }
    assert ListedBefore(a[0], b[0]) by {
      if m > 0 {
        assert ListedBefore(a[0], a[m]);
      }
    }
    BothWaysSame(todos, categories, a[0], b[0]);
  }

  /** Two stored views that may each be listed before the other are one view. */
  lemma BothWaysSame(todos: map<TodoId, Todo>, categories: map<CategoryId, Category>, x: TodoView, y: TodoView)
    requires forall id :: id in todos ==> todos[id].creationTime == id
    requires x.id in todos && x == Enrich(todos, categories, x.id)
    requires y.id in todos && y == Enrich(todos, categories, y.id)
    requires ListedBefore(x, y) && ListedBefore(y, x)
    ensures x == y
  {
    assert x.todo.creationTime == x.id && y.todo.creationTime == y.id;
  }

  /** Where an entry of one listing stands in another listing of the same ids. */
  lemma PositionOf(v: TodoView, b: seq<TodoView>) returns (k: nat)
    requires v.id in multiset(IdsOf(b))
    ensures k < |b| && b[k].id == v.id
  {
    var ids := IdsOf(b);
    k :| 0 <= k < |ids| && ids[k] == v.id;
  }

  /**
   * When creation times are distinct, as the store keeps them, the contract
   * of `getTodos` fixes its answer: any list of the selected todos, enriched
   * and sorted, is the one `getTodos` returns.
   */
  lemma ListingIsDetermined(todos: map<TodoId, Todo>, categories: map<CategoryId, Category>,
                            u: UserId, f: TodoFilter, vs: seq<TodoView>)
    requires forall id :: id in todos ==> todos[id].creationTime == id
    requires multiset(IdsOf(vs)) == multiset(Selected(todos, u, f))
    requires AllEnriched(todos, categories, vs)
    requires SortedForListing(vs)
    ensures GetTodos(todos, categories, Some(u), f) == Ok(vs)
  {
    var ws := GetTodos(todos, categories, Some(u), f).value;
    SortedUnique(todos, categories, vs, ws);
  }

  /** A stored todo of user 7, not completed and uncategorized, created at `time`. */
  function Sample(p: Priority, time: nat): (t: Todo)
    ensures t.priority == p && t.creationTime == time && t.userId == 7 && !t.completed
  {
    Todo("task", None, false, p, None, 7, None, time)
  }

  /** Todos 1 to 4 of user 7, created in the order low, high, medium, high. */
  function SampleTable(): map<TodoId, Todo>
  {
    map[1 := Sample(Low, 1), 2 := Sample(High, 2), 3 := Sample(Medium, 3), 4 := Sample(High, 4)]
  }

  /** The newer high one, the older high one, the medium one, the low one. */
  function SampleListing(): seq<TodoView>
  {
    var todos := SampleTable();
    [Enrich(todos, map[], 4), Enrich(todos, map[], 2), Enrich(todos, map[], 3), Enrich(todos, map[], 1)]
  }

  /** `getTodos` lists the sample table in the order of `SampleListing`. */
  lemma ListingOrderExample()
    ensures GetTodos(SampleTable(), map[], Some(7), TodoFilter(None, None)) == Ok(SampleListing())
  {
    var f := TodoFilter(None, None);
    SampleSelected();
    SampleEnriched();
    SampleIds(SampleListing());
    SampleListingSorted(SampleListing());
    ListingIsDetermined(SampleTable(), map[], 7, f, SampleListing());
  }

  lemma SampleSelected()
    ensures multiset(Selected(SampleTable(), 7, TodoFilter(None, None))) == multiset{1, 2, 3, 4}
    ensures forall id :: id in SampleTable() ==> SampleTable()[id].creationTime == id
  {
    assert Selected(SampleTable(), 7, TodoFilter(None, None)) == {1, 2, 3, 4};
  }

  lemma SampleEnriched()
    ensures AllEnriched(SampleTable(), map[], SampleListing())
  {
    var vs := SampleListing();
    forall i | 0 <= i < |vs| ensures vs[i].id in SampleTable() && vs[i] == Enrich(SampleTable(), map[], vs[i].id) {
    }
  }

  lemma SampleIds(vs: seq<TodoView>)
    requires |vs| == 4 && vs[0].id == 4 && vs[1].id == 2 && vs[2].id == 3 && vs[3].id == 1
    ensures multiset(IdsOf(vs)) == multiset{1, 2, 3, 4}
  {
    SampleIdSeq(vs);
    assert multiset([4, 2, 3, 1]) == multiset{1, 2, 3, 4};
  }

  lemma SampleIdSeq(vs: seq<TodoView>)
    requires |vs| == 4 && vs[0].id == 4 && vs[1].id == 2 && vs[2].id == 3 && vs[3].id == 1
    ensures IdsOf(vs) == [4, 2, 3, 1]
  {
    var ids := IdsOf(vs);
    assert |ids| == 4 && ids[0] == 4 && ids[1] == 2 && ids[2] == 3 && ids[3] == 1;
  }

  lemma SampleListingSorted(vs: seq<TodoView>)
    requires |vs| == 4
    requires Rank(vs[0].todo.priority) == 3 && vs[0].todo.creationTime == 4
    requires Rank(vs[1].todo.priority) == 3 && vs[1].todo.creationTime == 2
    requires Rank(vs[2].todo.priority) == 2
    requires Rank(vs[3].todo.priority) == 1
    ensures SortedForListing(vs)
  {
  }

  lemma ListingSelectsExactly(todos: map<TodoId, Todo>, u: UserId, f: TodoFilter,
                              scanned: seq<TodoId>, p: TodoId -> bool, kept: seq<TodoId>)
    requires multiset(scanned) == multiset(IndexKeys(todos, u, f.completed))
    requires forall id :: p(id) == (id in todos && todos[id].categoryId == f.categoryId)
    requires kept == if f.categoryId.Some? then Tables.Filter(scanned, p) else scanned
    ensures multiset(kept) == multiset(Selected(todos, u, f))
  {
    var keys := IndexKeys(todos, u, f.completed);
    if f.categoryId.Some? {
      Tables.FilterScan(scanned, keys, p);
      forall id ensures id in (set x | x in keys && p(x)) <==> id in Selected(todos, u, f) {
      }
      assert (set x | x in keys && p(x)) == Selected(todos, u, f);
    } else {
      forall id ensures id in keys <==> id in Selected(todos, u, f) {
      }
      assert keys == Selected(todos, u, f);
    }
  }

  /** Whatever the filter, `getTodos` never lists another user's todo. */
  lemma ListsOnlyCallersTodos(todos: map<TodoId, Todo>, categories: map<CategoryId, Category>,
                              u: UserId, f: TodoFilter)
    ensures GetTodos(todos, categories, Some(u), f).Ok?
    ensures var vs := GetTodos(todos, categories, Some(u), f).value;
            forall i :: 0 <= i < |vs| ==> vs[i].todo.userId == u && Matches(vs[i].todo, f)
  {
    var vs := GetTodos(todos, categories, Some(u), f).value;
    forall i | 0 <= i < |vs| ensures vs[i].todo.userId == u && Matches(vs[i].todo, f) {
      assert IdsOf(vs)[i] in multiset(Selected(todos, u, f));
    }
  }

  /** Every todo of the caller that passes the filter is listed. */
  lemma ListsEverySelectedTodo(todos: map<TodoId, Todo>, categories: map<CategoryId, Category>,
                               u: UserId, f: TodoFilter, id: TodoId)
    requires id in todos && todos[id].userId == u && Matches(todos[id], f)
    ensures GetTodos(todos, categories, Some(u), f).Ok?
    ensures var vs := GetTodos(todos, categories, Some(u), f).value;
            exists i :: 0 <= i < |vs| && vs[i] == Enrich(todos, categories, id)
  {
    var vs := GetTodos(todos, categories, Some(u), f).value;
    var i := Listed(vs, Selected(todos, u, f), id);
    assert vs[i] == Enrich(todos, categories, vs[i].id);
  }

  /** An id of the selected set stands somewhere in a listing of that set. */
  lemma Listed(vs: seq<TodoView>, sel: set<TodoId>, id: TodoId) returns (i: nat)
    requires multiset(IdsOf(vs)) == multiset(sel) && id in sel
    ensures i < |vs| && vs[i].id == id
  {
    assert id in multiset(IdsOf(vs));
    i :| 0 <= i < |IdsOf(vs)| && IdsOf(vs)[i] == id;
  }

  /**
   * `getTodoStats`: how many of the caller's todos there are, how many are
   * completed, how many pending, and how many pending ones have high priority.
   */
  function GetTodoStats(todos: map<TodoId, Todo>, caller: Option<UserId>): (r: Result<TodoStats>)
    ensures r.Ok? <==> caller.Some?
    ensures caller.None? ==> r == Err(NotAuthenticated)
    ensures r.Ok? ==> r.value.completed + r.value.pending == r.value.total
    ensures r.Ok? ==> r.value.highPriority <= r.value.pending
    ensures r.Ok? ==> caller.Some? && StatsCount(todos, caller.value, r.value)
  {
    if caller.None? then Err(NotAuthenticated)
    else
      var u := caller.value;
      var scanned := IndexScan(todos, u, None);
      var isCompleted := id => id in todos && IsCompleted(todos[id]);
      var isPending := id => id in todos && IsPending(todos[id]);
      var isUrgent := id => id in todos && IsUrgent(todos[id]);
      var st := TodoStats(|scanned|, Tables.Count(scanned, isCompleted), Tables.Count(scanned, isPending),
                          Tables.Count(scanned, isUrgent));
      assert st.completed + st.pending == st.total by {
        Tables.CountComplement(scanned, isCompleted, isPending);
      }
      assert st.highPriority <= st.pending by {
        Tables.CountMonotone(scanned, isUrgent, isPending);
      }
      assert StatsCount(todos, u, st) by {
        CountOwned(todos, u, scanned, isCompleted, IsCompleted);
        CountOwned(todos, u, scanned, isPending, IsPending);
        CountOwned(todos, u, scanned, isUrgent, IsUrgent);
      }
      Ok(st)
  }

  predicate IsCompleted(t: Todo) { t.completed }
  predicate IsPending(t: Todo) { !t.completed }
  /** What `highPriority` counts: pending todos of high priority. */
  predicate IsUrgent(t: Todo) { t.priority == High && !t.completed }

  /** The user's todos that satisfy `q`. */
  function OwnedWhere(todos: map<TodoId, Todo>, u: UserId, q: Todo -> bool): set<TodoId>
  {
    set id | id in todos && todos[id].userId == u && q(todos[id])
  }

  /** The four counts, stated over the set of the user's todos. */
  predicate StatsCount(todos: map<TodoId, Todo>, u: UserId, st: TodoStats)
  {
    && st.total == |Owned(todos, u)|
    && st.completed == |OwnedWhere(todos, u, IsCompleted)|
    && st.pending == |OwnedWhere(todos, u, IsPending)|
    && st.highPriority == |OwnedWhere(todos, u, IsUrgent)|
  }

  /** Counting a predicate over the scan of the user's todos is counting the matching set. */
  lemma CountOwned(todos: map<TodoId, Todo>, u: UserId, scanned: seq<TodoId>, p: TodoId -> bool, q: Todo -> bool)
    requires multiset(scanned) == multiset(Owned(todos, u))
    requires forall id :: p(id) == (id in todos && q(todos[id]))
    ensures Tables.Count(scanned, p) == |OwnedWhere(todos, u, q)|
  {
    Tables.CountScan(scanned, Owned(todos, u), p);
    assert (set x | x in Owned(todos, u) && p(x)) == OwnedWhere(todos, u, q);
  }

  /**
   * When a todo `id` is added to a table that lacks it, the owner's counts
   * grow by what the new todo adds and every other user's counts stay put.
   */
  lemma StatsAfterInsert(todos: map<TodoId, Todo>, id: TodoId, t: Todo, u: UserId)
    requires id !in todos
    ensures var before, after := GetTodoStats(todos, Some(u)).value, GetTodoStats(todos[id := t], Some(u)).value;
            if t.userId == u then
              && after.total == before.total + 1
              && after.completed == before.completed + (if t.completed then 1 else 0)
              && after.pending == before.pending + (if t.completed then 0 else 1)
              && after.highPriority == before.highPriority + (if IsUrgent(t) then 1 else 0)
            else after == before
  {
    var todos' := todos[id := t];
    CountsAfterInsert(todos, id, t, u, GetTodoStats(todos, Some(u)).value, GetTodoStats(todos', Some(u)).value);
  }

  lemma CountsAfterInsert(todos: map<TodoId, Todo>, id: TodoId, t: Todo, u: UserId, before: TodoStats, after: TodoStats)
    requires id !in todos
    requires StatsCount(todos, u, before) && StatsCount(todos[id := t], u, after)
    ensures if t.userId == u then
              && after.total == before.total + 1
              && after.completed == before.completed + (if t.completed then 1 else 0)
              && after.pending == before.pending + (if t.completed then 0 else 1)
              && after.highPriority == before.highPriority + (if IsUrgent(t) then 1 else 0)
            else after == before
  {
    assert Owned(todos[id := t], u) == OwnedWhere(todos[id := t], u, _ => true);
    assert Owned(todos, u) == OwnedWhere(todos, u, _ => true);
    OwnedWhereAfterInsert(todos, id, t, u, _ => true);
    OwnedWhereAfterInsert(todos, id, t, u, IsCompleted);
    OwnedWhereAfterInsert(todos, id, t, u, IsPending);
    OwnedWhereAfterInsert(todos, id, t, u, IsUrgent);
  }

  lemma OwnedWhereAfterInsert(todos: map<TodoId, Todo>, id: TodoId, t: Todo, u: UserId, q: Todo -> bool)
    requires id !in todos
    ensures |OwnedWhere(todos[id := t], u, q)| == |OwnedWhere(todos, u, q)| + if t.userId == u && q(t) then 1 else 0
  {
    var before, after := OwnedWhere(todos, u, q), OwnedWhere(todos[id := t], u, q);
    forall x ensures x in after <==> x in before || (x == id && t.userId == u && q(t)) {
      if x != id {
        assert x in todos[id := t] <==> x in todos;
      }
    }
    if t.userId == u && q(t) {
      assert after == before + {id};
    } else {
      assert after == before;
    }
  }

  /** The arguments of `createTodo`. */
  datatype NewTodo = NewTodo(
    title: string,
    description: Option<string>,
    priority: Priority,
    dueDate: Option<int>,
    categoryId: Option<CategoryId>)

  /** The document `createTodo` inserts: the arguments, the caller as owner, not completed. */
  function Created(args: NewTodo, u: UserId, time: nat): (t: Todo)
    ensures !t.completed && t.userId == u && t.creationTime == time
    ensures t.title == args.title && t.description == args.description && t.priority == args.priority
    ensures t.dueDate == args.dueDate && t.categoryId == args.categoryId
  {
    Todo(args.title, args.description, false, args.priority, args.dueDate, u, args.categoryId, time)
  }

  /** The optional fields of `updateTodo`; an absent field is left as it is. */
  datatype TodoPatch = TodoPatch(
    title: Option<string>,
    description: Option<string>,
    priority: Option<Priority>,
    dueDate: Option<int>,
    categoryId: Option<CategoryId>)

  /** `ctx.db.patch(id, updates)`: the supplied fields replace the stored ones. */
  function Patched(t: Todo, p: TodoPatch): (r: Todo)
    ensures r.userId == t.userId && r.completed == t.completed && r.creationTime == t.creationTime
    ensures r.title == (if p.title.Some? then p.title.value else t.title)
    ensures r.description == (if p.description.Some? then p.description else t.description)
    ensures r.priority == (if p.priority.Some? then p.priority.value else t.priority)
    ensures r.dueDate == (if p.dueDate.Some? then p.dueDate else t.dueDate)
    ensures r.categoryId == (if p.categoryId.Some? then p.categoryId else t.categoryId)
  {
    t.(title := if p.title.Some? then p.title.value else t.title,
       description := if p.description.Some? then p.description else t.description,
       priority := if p.priority.Some? then p.priority.value else t.priority,
       dueDate := if p.dueDate.Some? then p.dueDate else t.dueDate,
       categoryId := if p.categoryId.Some? then p.categoryId else t.categoryId)
  }

  /** Applying the same patch again changes nothing more. */
  lemma PatchIdempotent(t: Todo, p: TodoPatch)
    ensures Patched(Patched(t, p), p) == Patched(t, p)
  {
  }

  /** A patch that supplies no field leaves the todo as it is. */
  lemma EmptyPatchKeeps(t: Todo)
    ensures Patched(t, TodoPatch(None, None, None, None, None)) == t
  {
  }

  /** `toggleTodo` patches `completed` to its negation. */
  function Toggled(t: Todo): (r: Todo)
    ensures r.completed == !t.completed
    ensures r.(completed := t.completed) == t
  {
    t.(completed := !t.completed)
  }

  /** Toggling twice gives back the original todo. */
  lemma ToggleInvolution(t: Todo)
    ensures Toggled(Toggled(t)) == t
  {
  }

  /**
   * The two checks `toggleTodo`, `updateTodo` and `deleteTodo` start with:
   * a caller must be signed in, and the todo must exist and be theirs. A
   * missing todo and another user's todo give the same error.
   */
  function TodoGuard(todos: map<TodoId, Todo>, caller: Option<UserId>, id: TodoId): (r: Result<()>)
    ensures r.Ok? <==> caller.Some? && id in todos && todos[id].userId == caller.value
    ensures caller.None? ==> r == Err(NotAuthenticated)
    ensures caller.Some? && r.Err? ==> r == Err(TodoNotFoundOrUnauthorized)
  {
    if caller.None? then Err(NotAuthenticated)
    else if id !in todos || todos[id].userId != caller.value then Err(TodoNotFoundOrUnauthorized)
    else Ok(())
  }
}
