/** The local task store: whole-collection create, read, update and delete over one storage slot.
    Each operation reads the slot, computes the new collection, writes it back as a whole and
    settles with a value or an error. The 300 ms delay and the promise machinery are not modelled:
    one call is one atomic step. */
module Store {
  import opened Wrappers
  import opened Seqs
  import opened Types

  /** The storage slot named 'tasks': None until something has been written to it. */
  type Slot = Option<seq<Task>>

  /** The rejection message of an update whose id is not stored. */
  const NotFound: string := "Task not found"

  /** The slot after an operation, and how the operation's promise settled. */
  datatype StoreStep<+T> = StoreStep(slot: Slot, outcome: Result<T, string>)

  /** The slot after a load, and the collection the load returned. */
  datatype Loaded = Loaded(slot: Slot, tasks: seq<Task>)

  /** The example tasks a cold slot is seeded with. */
  const MockTasks: seq<Task> := [
    Task(None, Some("1"), "Complete React project", "Finish implementing the Task Mate application",
         "2025-04-18", "work", false),
    Task(None, Some("2"), "Go grocery shopping", "Buy fruits, vegetables, and milk",
         "2025-04-13", "shopping", true),
    Task(None, Some("3"), "Gym workout", "Complete 30 minutes of cardio and strength training",
         "2025-04-14", "personal", false)
  ]

  /** Reads the slot. A cold slot is seeded with the example tasks, which are written and returned;
      a saved collection is returned as it is. Either way the slot afterwards holds what was returned. */
  function LoadTasks(slot: Slot): (r: Loaded)
    ensures r.slot == Some(r.tasks)
    ensures slot.Some? ==> r.slot == slot
    ensures slot.None? ==> r.tasks == MockTasks
  {
    match slot
    case Some(saved) => Loaded(slot, saved)
    case None => Loaded(Some(MockTasks), MockTasks)
  }

  /** Writes a whole collection; loading afterwards returns exactly that collection and writes nothing. */
  function SaveTasks(tasks: seq<Task>): (r: Slot)
    ensures LoadTasks(r) == Loaded(r, tasks)
  {
    Some(tasks)
  }

  /** Loading a slot that has already been loaded returns the same collection and leaves it as it is. */
  lemma LoadTasksIdempotent(slot: Slot)
    ensures LoadTasks(LoadTasks(slot).slot) == LoadTasks(slot)
  {
  }

  /** `getTasks`: resolves with the loaded collection and never rejects. */
  function GetTasks(slot: Slot): (r: StoreStep<seq<Task>>)
    ensures r.outcome.Success?
    ensures r.slot == Some(r.outcome.value)
    ensures slot.None? ==> r.outcome.value == MockTasks
    ensures slot.Some? ==> r.slot == slot
  {
    var loaded := LoadTasks(slot);
    StoreStep(loaded.slot, Success(loaded.tasks))
  }

  /** The task `createTask` builds from form data: the form's fields, the clock-derived id, not completed. */
  function NewTask(data: TaskFormData, clockId: string): Task {
    Task(None, Some(clockId), data.title, data.description, data.dueDate, data.category, false)
  }

  /** `createTask`: appends a new task to the loaded collection and resolves with it. `clockId` is the
      string form of the creation time in milliseconds; nothing makes it unique. */
  function CreateTask(slot: Slot, data: TaskFormData, clockId: string): (r: StoreStep<Task>)
    ensures r.outcome.Success?
    ensures var t := r.outcome.value;
      && t.title == data.title && t.description == data.description
      && t.dueDate == data.dueDate && t.category == data.category
      && t.id == Some(clockId) && t.altId == None && !t.completed
    ensures var before := LoadTasks(slot).tasks;
      && r.slot.Some?
      && var after := r.slot.value;
      && |after| == |before| + 1
      && after[..|before|] == before
      && after[|before|] == r.outcome.value
  {
    var tasks := LoadTasks(slot).tasks;
    var created := NewTask(data, clockId);
    StoreStep(SaveTasks(tasks + [created]), Success(created))
  }

  /** The object spread `{ ...t, ...updates }`: every field present in `updates` overrides, every absent one is kept. */
  function Merge(t: Task, updates: TaskPatch): Task {
    Task(
      if updates.altId.Some? then updates.altId else t.altId,
      if updates.id.Some? then updates.id else t.id,
      updates.title.GetOr(t.title),
      updates.description.GetOr(t.description),
      updates.dueDate.GetOr(t.dueDate),
      updates.category.GetOr(t.category),
      updates.completed.GetOr(t.completed))
  }

  /** `updateTask`: merges `updates` onto the first loaded task whose `id` equals `key` and resolves with the
      merged task; rejects with "Task not found", writing nothing beyond the load itself, when no task has that id. */
  function UpdateTask(slot: Slot, key: Key, updates: TaskPatch): (r: StoreStep<Task>)
    ensures var tasks := LoadTasks(slot).tasks;
      r.outcome.Failure? <==> forall j :: 0 <= j < |tasks| ==> tasks[j].id != key
    ensures r.outcome.Failure? ==> r.outcome.error == NotFound && r.slot == LoadTasks(slot).slot
    ensures r.outcome.Success? ==>
      && r.slot.Some?
      && |r.slot.value| == |LoadTasks(slot).tasks|
      && r.outcome.value in r.slot.value
  {
    var loaded := LoadTasks(slot);
    match FirstIndex(HasId(key), loaded.tasks)
    case None => StoreStep(loaded.slot, Failure(NotFound))
    case Some(i) =>
      var merged := Merge(loaded.tasks[i], updates);
      assert loaded.tasks[i := merged][i] == merged;
      StoreStep(SaveTasks(loaded.tasks[i := merged]), Success(merged))
  }

  /** `deleteTask`: keeps exactly the loaded tasks whose `id` differs from `key`, in order, and never rejects. */
  function DeleteTask(slot: Slot, key: Key): (r: StoreStep<()>)
    ensures r.outcome == Success(())
    ensures r.slot.Some?
    ensures IsSubsequence(r.slot.value, LoadTasks(slot).tasks)
    ensures forall i :: 0 <= i < |r.slot.value| ==> r.slot.value[i].id != key
    ensures var tasks := LoadTasks(slot).tasks;
      forall i :: 0 <= i < |tasks| && tasks[i].id != key ==> tasks[i] in r.slot.value
  {
    var tasks := LoadTasks(slot).tasks;
    FilterIsSubsequence(LacksId(key), tasks);
    StoreStep(SaveTasks(Filter(LacksId(key), tasks)), Success(()))
  }

  /** The filter callback of `deleteTask`, `t => t.id !== key`. */
  function LacksId(key: Key): Task -> bool {
    (t: Task) => t.id != key
  }

  /** An update object with no fields leaves a task as it is. */
  lemma MergeEmptyPatch(t: Task)
    ensures Merge(t, EmptyPatch) == t
  {
  }

  /** Applying the same update object twice is the same as applying it once. */
  lemma MergeIdempotent(t: Task, updates: TaskPatch)
    ensures Merge(Merge(t, updates), updates) == Merge(t, updates)
  {
  }

  /** The update `{ completed }` sets the flag and keeps every other field of the task. */
  lemma MergeCompleted(t: Task, completed: bool)
    ensures Merge(t, CompletedPatch(completed)) == t.(completed := completed)
  {
  }

  /** An update whose key first matches at position `i` rewrites that position only: the collection keeps its
      length, every other position is unchanged, and the promise resolves with the task now stored at `i`. */
  lemma UpdateTaskAt(slot: Slot, key: Key, updates: TaskPatch, i: nat)
    requires var tasks := LoadTasks(slot).tasks;
      i < |tasks| && tasks[i].id == key && forall j :: 0 <= j < i ==> tasks[j].id != key
    ensures var tasks := LoadTasks(slot).tasks;
      var r := UpdateTask(slot, key, updates);
      && r.slot == Some(tasks[i := Merge(tasks[i], updates)])
      && r.outcome == Success(Merge(tasks[i], updates))
      && |r.slot.value| == |tasks|
      && r.slot.value[i] == r.outcome.value
      && forall j :: 0 <= j < |tasks| && j != i ==> r.slot.value[j] == tasks[j]
  {
    var tasks := LoadTasks(slot).tasks;
    FirstIndexAt(HasId(key), tasks, i);
    var merged := Merge(tasks[i], updates);
    assert UpdateTask(slot, key, updates) == StoreStep(Some(tasks[i := merged]), Success(merged));
  }

  /** Deleting removes every copy of each task whose id is `key` and keeps every copy of every other task. */
  lemma DeleteTaskCount(slot: Slot, key: Key, t: Task)
    ensures var after := DeleteTask(slot, key).slot.value;
      multiset(after)[t] == if t.id == key then 0 else multiset(LoadTasks(slot).tasks)[t]
  {
    FilterCount(LacksId(key), LoadTasks(slot).tasks, t);
  }

  /** Deleting an id no loaded task has leaves the loaded collection stored unchanged. */
  lemma DeleteAbsentIsNoop(slot: Slot, key: Key)
    requires var tasks := LoadTasks(slot).tasks;
      forall j :: 0 <= j < |tasks| ==> tasks[j].id != key
    ensures DeleteTask(slot, key).slot == LoadTasks(slot).slot
  {
    FilterKeepsAll(LacksId(key), LoadTasks(slot).tasks);
  }

  /** Deleting twice is the same as deleting once. */
  lemma DeleteTaskIdempotent(slot: Slot, key: Key)
    ensures var once := DeleteTask(slot, key);
      DeleteTask(once.slot, key) == once
  {
    FilterIdempotent(LacksId(key), LoadTasks(slot).tasks);
  }
}
