/**
 * The records exchanged with the remote data service: the `Todo` row of the
 * `todos` table, the insert payload and the partial update sent when a task's
 * completion flag is toggled.
 */
module Todos {
  import opened Wrappers

  /** The signed-in user; only its identifier is used by the task list. */
  datatype User = User(id: string)

  /**
   * One row of the `todos` table. `description` is optional in the client type
   * and nullable in the table, so both absent and null become `None`.
   * Identifiers and timestamps are opaque strings chosen by the service.
   */
  datatype Todo = Todo(
    id: string,
    userId: string,
    title: string,
    description: Option<string>,
    isComplete: bool,
    createdAt: string,
    updatedAt: string)

  /** The insert payload: a `Todo` without its id and timestamps. */
  datatype NewTodo = NewTodo(userId: string, title: string, description: string, isComplete: bool)

  /** The partial update `{ is_complete }` applied to the row with identifier `id`. */
  datatype TodoUpdate = TodoUpdate(id: string, isComplete: bool)
}
