/** The task page's in-memory collection and the state updates its four handlers apply once the store
    has settled. Each handler receives the settled outcome of its store call: on success it updates the
    collection, on rejection it leaves the collection as it was (the error toast is not modelled).
    The page matches a task by `id` OR `_id`, unlike the store, which matches by `id` only. */
module Page {
  import opened Wrappers
  import opened Seqs
  import opened Types

  /** The page's matching rule, `task.id === key || task._id === key`. */
  predicate Matches(t: Task, key: Key) {
    t.id == key || t.altId == key
  }

  /** The delete handler's filter callback, `task.id !== key && task._id !== key`. */
  function Unmatched(key: Key): Task -> bool {
    (t: Task) => !Matches(t, key)
  }

  /** The collection after the initial load: the store's collection, or the initial empty list when the load rejects. */
  function LoadedTasks(loaded: Result<seq<Task>, string>): (r: seq<Task>)
    ensures loaded.Success? ==> r == loaded.value
    ensures loaded.Failure? ==> r == []
  {
    match loaded
    case Success(data) => data
    case Failure(_) => []
  }

  /** `handleAddTask`: the created task is appended last and nothing else changes; a rejection changes nothing. */
  function HandleAddTask(tasks: seq<Task>, created: Result<Task, string>): (r: seq<Task>)
    ensures created.Success? ==> |r| == |tasks| + 1 && r[..|tasks|] == tasks && r[|tasks|] == created.value
    ensures created.Failure? ==> r == tasks
  {
    match created
    case Success(t) => tasks + [t]
    case Failure(_) => tasks
  }

  /** `handleCompleteTask`: once the store confirms, every task matching `key` gets the new completion flag and
      keeps its other fields; every other task is untouched. A rejection changes nothing. */
  function HandleCompleteTask(tasks: seq<Task>, key: Key, completed: bool, confirmed: Result<Task, string>): (r: seq<Task>)
    ensures |r| == |tasks|
    ensures confirmed.Failure? ==> r == tasks
    ensures confirmed.Success? ==> forall i :: 0 <= i < |tasks| ==>
      && (Matches(tasks[i], key) ==> r[i] == tasks[i].(completed := completed))
      && (!Matches(tasks[i], key) ==> r[i] == tasks[i])
  {
    match confirmed
    case Failure(_) => tasks
    case Success(_) =>
      seq(|tasks|, i requires 0 <= i < |tasks| =>
        if Matches(tasks[i], key) then tasks[i].(completed := completed) else tasks[i])
  }

  /** `handleUpdateTask`: once the store resolves with the merged task, every task matching `key` is replaced
      by it and every other task is untouched. A rejection changes nothing. */
  function HandleUpdateTask(tasks: seq<Task>, key: Key, updated: Result<Task, string>): (r: seq<Task>)
    ensures |r| == |tasks|
    ensures updated.Failure? ==> r == tasks
    ensures updated.Success? ==> forall i :: 0 <= i < |tasks| ==>
      && (Matches(tasks[i], key) ==> r[i] == updated.value)
      && (!Matches(tasks[i], key) ==> r[i] == tasks[i])
  {
    match updated
    case Failure(_) => tasks
    case Success(t) => seq(|tasks|, i requires 0 <= i < |tasks| => if Matches(tasks[i], key) then t else tasks[i])
  }

  /** `handleDeleteTask`: once the store confirms, exactly the tasks matching `key` are removed and the rest keep
      their order. A rejection changes nothing. */
  function HandleDeleteTask(tasks: seq<Task>, key: Key, confirmed: Result<(), string>): (r: seq<Task>)
    ensures confirmed.Failure? ==> r == tasks
    ensures IsSubsequence(r, tasks)
    ensures confirmed.Success? ==> forall i :: 0 <= i < |r| ==> !Matches(r[i], key)
    ensures forall i :: 0 <= i < |tasks| && !Matches(tasks[i], key) ==> tasks[i] in r
  {
    SubsequenceReflexive(tasks);
    FilterIsSubsequence(Unmatched(key), tasks);
    if confirmed.Failure? then tasks else Filter(Unmatched(key), tasks)
  }

  /** A confirmed delete removes every copy of each matching task and keeps every copy of every other task. */
  lemma HandleDeleteTaskCount(tasks: seq<Task>, key: Key, t: Task)
    ensures multiset(HandleDeleteTask(tasks, key, Success(())))[t] == if Matches(t, key) then 0 else multiset(tasks)[t]
  {
    FilterCount(Unmatched(key), tasks, t);
  }

  /** Completing with the same key and flag twice is the same as completing once. */
  lemma HandleCompleteTaskIdempotent(tasks: seq<Task>, key: Key, completed: bool, confirmed: Result<Task, string>)
    ensures var once := HandleCompleteTask(tasks, key, completed, confirmed);
      HandleCompleteTask(once, key, completed, confirmed) == once
  {
  }

  /** Deleting the same key twice is the same as deleting it once. */
  lemma HandleDeleteTaskIdempotent(tasks: seq<Task>, key: Key, confirmed: Result<(), string>)
    ensures var once := HandleDeleteTask(tasks, key, confirmed);
      HandleDeleteTask(once, key, confirmed) == once
  {
    FilterIdempotent(Unmatched(key), tasks);
  }
}
