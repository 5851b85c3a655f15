/** The todo record (src/index.ts:6-15). Timestamps are milliseconds since the
    epoch, the value `Date.getTime()` returns. */
module Todos {
  import opened Wrappers

  /** The three priority levels; zod rejects every other string, so no other
      value is representable. */
  datatype Priority = Low | Medium | High

  datatype Todo = Todo(
    id: string,
    title: string,
    description: Option<string>,
    completed: bool,
    priority: Priority,
    createdAt: int,
    updatedAt: int,
    tags: seq<string>)

  /** The sort key of `list_todos`. */
  function CreatedAt(t: Todo): int {
    t.createdAt
  }
}
