/** The records the task manager passes around: a stored task, the data of the task form,
    and a partial task used as an update. */
module Types {
  import opened Wrappers

  /** A task identifier as the program handles it: a string, or `undefined` when the task lacks that field.
      JavaScript's `===` between two such values is exactly equality of `Key`s. */
  type Key = Option<string>

  /** A stored task. `altId` is the record's `_id` field (the identifier a document database would assign);
      `id` is the identifier the local store assigns. Both are optional. */
  datatype Task = Task(
    altId: Key,
    id: Key,
    title: string,
    description: string,
    dueDate: string,
    category: string,
    completed: bool)

  /** What the task form edits: every field of a task except its identifiers and completion flag. */
  datatype TaskFormData = TaskFormData(
    title: string,
    description: string,
    dueDate: string,
    category: string)

  /** A `Partial<Task>`: a field that is None is absent from the update object. */
  datatype TaskPatch = TaskPatch(
    altId: Key,
    id: Key,
    title: Option<string>,
    description: Option<string>,
    dueDate: Option<string>,
    category: Option<string>,
    completed: Option<bool>)

  const EmptyPatch: TaskPatch := TaskPatch(None, None, None, None, None, None, None)

  /** The update object `{ completed }`. */
  function CompletedPatch(completed: bool): TaskPatch {
    EmptyPatch.(completed := Some(completed))
  }

  /** Form data passed where a `Partial<Task>` is expected: its four fields are present, nothing else is. */
  function FormPatch(data: TaskFormData): TaskPatch {
    TaskPatch(None, None, Some(data.title), Some(data.description), Some(data.dueDate), Some(data.category), None)
  }

  /** The store's matching rule, `t.id === key`, as a predicate value. */
  function HasId(key: Key): Task -> bool {
    (t: Task) => t.id == key
  }

  /** The identifier of a task under the store's rule, as a function value. */
  function IdOf(t: Task): Key {
    t.id
  }
}
