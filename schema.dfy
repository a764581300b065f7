/**
 * The records of the two user-scoped tables (`todos`, `categories`) and the
 * values every handler of the store works with: document ids, the optional
 * caller, and the errors a handler raises.
 */
module Schema {

  /** Users come from the external auth provider; ids are opaque. */
  type UserId = nat
  /** Document ids of the `todos` and `categories` tables. */
  type TodoId = nat
  type CategoryId = nat

  datatype Option<+T> = None | Some(value: T)

  /** The three error messages the handlers throw. */
  datatype Error =
    | NotAuthenticated                // "Not authenticated"
    | TodoNotFoundOrUnauthorized      // "Todo not found or unauthorized"
    | CategoryNotFoundOrUnauthorized  // "Category not found or unauthorized"

  /** A handler either returns a value or throws one of the errors above. */
  datatype Result<+T> = Ok(value: T) | Err(error: Error)

  datatype Priority = Low | Medium | High

  /** The weight the todo list sorts by: high 3, medium 2, low 1. */
  function Rank(p: Priority): (r: nat)
    ensures 1 <= r <= 3
    ensures r == 3 <==> p == High
    ensures r == 1 <==> p == Low
  {
    match p
    case High => 3
    case Medium => 2
    case Low => 1
  }

  /**
   * A row of `todos`. `creationTime` is the system `_creationTime` field;
   * `dueDate` is a timestamp in milliseconds.
   */
  datatype Todo = Todo(
    title: string,
    description: Option<string>,
    completed: bool,
    priority: Priority,
    dueDate: Option<int>,
    userId: UserId,
    categoryId: Option<CategoryId>,
    creationTime: nat)

  /** A row of `categories`. */
  datatype Category = Category(name: string, color: string, userId: UserId)
}
