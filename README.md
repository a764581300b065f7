# Todo and category store

A Dafny model of the server side of a small todo application built on
Convex: the query and mutation handlers of `src/convex/todos.ts` and
`src/convex/categories.ts`, over the two tables declared in
`src/convex/schema.ts`. Every handler is scoped to the signed-in user.
The model keeps the tables as maps from document id to document. Read-only
handlers are pure functions of those maps. Mutations are methods of a
`TodoStore` class whose fields are the two maps and the counter that
issues ids.

- `schema.dfy` (module `Schema`): ids, `Priority`, the `Todo` and `Category`
  documents, the three errors the handlers throw, `Option` and `Result`.
- `tables.dfy` (module `Tables`): what the database offers the handlers.
  An index scan is the set of matching ids in ascending order. `filter` and
  `.length` over a scan are `Filter` and `Count`.
- `todos.dfy` (module `Todos`): `getTodos` (scan, category filter, category
  lookup, sort) and `getTodoStats` as functions. Also the documents that
  `createTodo`, `toggleTodo` and `updateTodo` write, and the ownership check.
- `categories.dfy` (module `Categories`): `getCategories`, the ownership
  check of `deleteCategory`, and what its cascade does to the todo table.
- `store.dfy` (module `Store`): the class `TodoStore` with one method per
  mutation. `DeleteCategory` patches the referencing todos one at a time in
  a loop, as the handler does.

A thrown `Error("Not authenticated")` is `Err(NotAuthenticated)`. The two
"not found or unauthorized" errors are `Err(TodoNotFoundOrUnauthorized)` and
`Err(CategoryNotFoundOrUnauthorized)`. A handler that throws writes nothing.

## Model

| member | source | states |
|---|---|---|
| Schema.Rank | src/convex/todos.ts:50 | high ranks 3, medium 2, low 1; the rank is 3 exactly for high and 1 exactly for low |
| Tables.Ascending | src/convex/schema.ts:45-47 | an index scan lists every matching id exactly once, in ascending order, and nothing else |
| Tables.Filter | src/convex/todos.ts:35 | `filter` keeps exactly the elements that pass the test, each as often as in the input |
| Tables.Count | src/convex/todos.ts:159-161 | `.filter(...).length` is at most the length, 0 when no element passes and the full length when every element passes |
| Tables.CountComplement | src/convex/todos.ts:159-160 | counting the completed and the not completed elements of a scan adds up to its length |
| Tables.CountMonotone | src/convex/todos.ts:160-161 | a stricter test never counts more elements |
| Todos.IndexScan | src/convex/todos.ts:17-31 | the scan picks `by_user_and_completed` when `completed` is given and `by_user` otherwise; it yields exactly the user's todos with that completion state |
| Todos.FilterCategory | src/convex/todos.ts:33-36 | after the optional category filter the kept ids are exactly the user's todos that pass both filters |
| Todos.LookupCategory | src/convex/todos.ts:41-43 | the category is the stored document when the todo names a stored category, and absent otherwise |
| Todos.EnrichAll | src/convex/todos.ts:39-46 | `todos.map(...)` turns each kept id, in order, into its enriched entry |
| Todos.Enrich | src/convex/todos.ts:39-46 | a listed entry is the stored todo with its id and its resolved category |
| Todos.ListedBefore | src/convex/todos.ts:48-53 | `a` may stand before `b` exactly when the source's comparator (priority difference, then creation-time difference) is not positive for the pair |
| Todos.SortForListing | src/convex/todos.ts:48-54 | the comparator sort puts higher priority first and, within a priority, the newer todo first; the result is a permutation of its input |
| Todos.GetTodos | src/convex/todos.ts:6-56 | no caller gives `NotAuthenticated`; otherwise the ids listed are a permutation of the caller's todos that pass the filters, each entry is the stored todo with its category, and the list is sorted |
| Todos.ListsOnlyCallersTodos | src/convex/todos.ts:17-36 | every listed todo belongs to the caller and passes the filters |
| Todos.ListsEverySelectedTodo | src/convex/todos.ts:17-46 | every todo of the caller that passes the filters is listed, with its category |
| Todos.ListingIsDetermined | src/convex/todos.ts:48-54 | with distinct creation times, any sorted and enriched list of the selected todos is exactly what `getTodos` returns |
| Todos.SortedUnique | src/convex/todos.ts:48-54 | with distinct creation times, two sorted listings of the same stored todos are equal |
| Todos.ListingOrderExample | src/convex/todos.ts:48-54 | four todos created as low, high, medium, high are listed as the newer high, the older high, the medium, the low |
| Todos.GetTodoStats | src/convex/todos.ts:146-170 | no caller gives `NotAuthenticated`; otherwise completed + pending == total, highPriority <= pending, and each count is the size of the matching set of the caller's todos |
| Todos.StatsAfterInsert | src/convex/todos.ts:154-167 | inserting a todo raises its owner's counts by what it adds and leaves every other user's counts as they were |
| Todos.Created | src/convex/todos.ts:73-77 | the inserted document takes every field from the arguments, is not completed, and is owned by the caller |
| Todos.Patched | src/convex/todos.ts:122-123 | each supplied field replaces the stored one; unsupplied fields, `userId`, `completed` and the creation time keep their values |
| Todos.PatchIdempotent | src/convex/todos.ts:122-123 | applying the same patch twice is applying it once |
| Todos.EmptyPatchKeeps | src/convex/todos.ts:122-123 | a patch with no field leaves the todo unchanged |
| Todos.Toggled | src/convex/todos.ts:95-97 | `completed` is negated and no other field changes |
| Todos.ToggleInvolution | src/convex/todos.ts:95-97 | toggling twice gives back the original todo |
| Todos.TodoGuard | src/convex/todos.ts:85-93 | passes exactly when a caller is signed in and owns an existing todo; no caller gives `NotAuthenticated`, a missing or foreign todo gives the one combined error |
| Categories.GetCategories | src/convex/categories.ts:6-19 | no caller gives `NotAuthenticated`; otherwise the ids listed are a permutation of the caller's categories in ascending id order, which is creation order, and each entry is the stored document |
| Categories.Documents | src/convex/categories.ts:14-17 | the collected documents are the stored categories with the scanned ids, in scan order |
| Categories.ListsExactlyOwnCategories | src/convex/categories.ts:14-17 | a category is listed exactly when the caller owns it |
| Categories.CategoryGuard | src/convex/categories.ts:44-52 | passes exactly when a caller is signed in and owns an existing category; otherwise `NotAuthenticated` or the one combined error |
| Categories.Uncategorized | src/convex/categories.ts:61 | the patch clears `categoryId` and changes no other field |
| Categories.TodosInCategory | src/convex/categories.ts:55-58 | the `by_category` scan yields every todo naming the category, whoever owns it, each once |
| Categories.ClearCategory | src/convex/categories.ts:55-62 | after the cascade no todo names the category, the todos that named it lose only their category, and every other todo and no id is changed |
| Categories.ClearedIn | src/convex/categories.ts:60-62 | patching a set of todos changes only those todos and keeps every id |
| Categories.ClearOneMore | src/convex/categories.ts:60-62 | patching one more todo gives the table with that todo added to the patched set |
| Categories.CascadeComplete | src/convex/categories.ts:55-62 | patching exactly the todos that name the category yields the cascaded table |
| Categories.CascadeKeepsReferencesValid | src/convex/categories.ts:54-64 | if every category reference was valid before, it still is after the cascade and the delete |
| Categories.DeleteWithoutCascadeDangles | src/convex/categories.ts:54-64 | deleting the category without the cascade would leave a todo naming a missing category |
| Categories.CascadeKeepsStats | src/convex/categories.ts:55-62 | the cascade changes no user's todo statistics |
| Categories.NothingListedUnderDeletedCategory | src/convex/categories.ts:55-64 | after the deletion, listing the caller's todos of that category yields the empty list |
| Store.TodoStore.constructor | src/convex/schema.ts:36-53 | a new store has empty tables and satisfies the store invariant |
| Store.TodoStore.CreateTodo | src/convex/todos.ts:59-79 | no caller: `NotAuthenticated` and nothing changes; otherwise exactly one new todo under a fresh id, built by `Created`, and nothing else changes |
| Store.TodoStore.ToggleTodo | src/convex/todos.ts:82-99 | on a guard failure returns that error and nothing changes; otherwise only that todo is replaced by its toggled version |
| Store.TodoStore.UpdateTodo | src/convex/todos.ts:102-125 | on a guard failure returns that error and nothing changes; otherwise only that todo is replaced by its patched version |
| Store.TodoStore.DeleteTodo | src/convex/todos.ts:128-143 | on a guard failure returns that error and nothing changes; otherwise exactly that id is removed |
| Store.TodoStore.CreateCategory | src/convex/categories.ts:22-38 | no caller: `NotAuthenticated` and nothing changes; otherwise one new category under a fresh id with name and color verbatim, owned by the caller |
| Store.TodoStore.DeleteCategory | src/convex/categories.ts:41-66 | on a guard failure returns that error and nothing changes; otherwise every todo naming the category loses it, then the category alone is removed |
| Store.TodoStore.ClearReferences | src/convex/categories.ts:55-62 | the loop over the `by_category` scan leaves the todo table cascaded and the category table and counter as they were |
| Store.VisitNext | src/convex/categories.ts:60-62 | one loop step keeps the invariant: visited todos are cleared, unvisited ones untouched |
| Store.VisitedAll | src/convex/categories.ts:55-62 | when the loop has visited the whole scan, the todo table is the cascaded table |
| Store.CascadeKeepsStamps | src/convex/categories.ts:60-64 | the cascade and the delete keep ids below the counter and creation times as they were |
| Store.ToggleTwice | src/convex/todos.ts:95-97 | two `toggleTodo` calls with the same arguments leave both tables as they were |

## Left out

- Authentication: `getAuthUserId` is an external provider; every handler takes the caller as an `Option<UserId>` argument.
- Document ids and `_creationTime`: one counter issues the ids of both tables and the creation times, so a todo's creation time is its id. The store invariant `Stamped` keeps this. Real timestamps and string ids are not modelled.
- Ids of the two tables share one `nat` space. The argument validators `v.id("todos")` and `v.id("categories")` reject an id of the other table before a handler runs; the model instead answers such an id with the not-found error. Category documents carry no `_creationTime` field, since no handler reads it.
- Concurrency: the `Promise.all` of `getTodos` is a sequential map. Each handler is one atomic transaction. Conflicts between transactions belong to the platform.
- Indexes: index scans are modelled by their result, in ascending id order. Ids are issued in creation order, so this is the order an index yields for one key. `getCategories` returns its scan in that order; `getTodos` sorts its scan afterwards; the `by_category` scan of `deleteCategory` only decides the order of the patches. Index performance is not modelled.
- `dueDate` is a JavaScript number; it is an `int` here. It is stored and copied, never computed with.
- Todos.SortForListing: is insertion sort, not the platform's sort. When creation times tie, the two sorts could order the tied todos differently. The store never produces such ties, and `Todos.ListingIsDetermined` shows the order is then fixed.
- No check that a todo's `categoryId` names an existing category or one the caller owns: neither `createTodo` nor `updateTodo` looks the category up before storing it, so the model stores any given id. `Todos.LookupCategory` resolves any stored category, including another user's, as `ctx.db.get` does.
- Non-empty titles and category names are not enforced: the handlers store the arguments verbatim. Any check lives in the user interface, which is not modelled.
- The return values of `ctx.db.patch` and `ctx.db.delete` carry nothing; the mutations return `Ok(())`.
- The user and auth tables of the schema, `schemaValidation: false`, and the React pages and components are outside this model.
