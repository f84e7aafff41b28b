/** One page session over the local store: each user action calls the store and then applies the page's
    state update to the outcome. The theorem of this module is that the page's collection mirrors what the
    store holds, provided the tasks are keyed the way the local store keys them and every creation gets a
    clock id no stored task already has. */
module Session {
  import opened Wrappers
  import opened Seqs
  import opened Text
  import opened Types
  import Store
  import Page
  import TaskItem
  import TaskForm

  /** The storage slot and the page's in-memory collection. */
  datatype Session = Session(slot: Store.Slot, tasks: seq<Task>)

  /** The page's collection is exactly what the slot holds. */
  predicate Mirrors(s: Session) {
    s.slot == Some(s.tasks)
  }

  /** Tasks keyed as the local store keys them: every task has an `id`, none has an `_id`, and no two share an `id`. */
  ghost predicate LocallyKeyed(tasks: seq<Task>) {
    && (forall i :: 0 <= i < |tasks| ==> tasks[i].id.Some? && tasks[i].altId.None?)
    && DistinctBy(IdOf, tasks)
  }

  /** No task of the collection has `clockId` as its `id`. */
  ghost predicate FreshId(tasks: seq<Task>, clockId: string) {
    forall i :: 0 <= i < |tasks| ==> tasks[i].id != Some(clockId)
  }

  /** The page's initial load. */
  function Open(slot: Store.Slot): (r: Session)
    ensures Mirrors(r)
    ensures slot.None? ==> r.tasks == Store.MockTasks
    ensures slot.Some? ==> r.slot == slot
  {
    var got := Store.GetTasks(slot);
    Session(got.slot, Page.LoadedTasks(got.outcome))
  }

  /** Adding a task: `createTask`, then `handleAddTask` on its outcome. */
  function AddTask(s: Session, data: TaskFormData, clockId: string): (r: Session)
    ensures Mirrors(s) ==> Mirrors(r)
  {
    var step := Store.CreateTask(s.slot, data, clockId);
    Session(step.slot, Page.HandleAddTask(s.tasks, step.outcome))
  }

  /** Completing a task: `updateTask(key, { completed })`, then `handleCompleteTask` on its outcome. */
  function CompleteTask(s: Session, key: Key, completed: bool): Session {
    var step := Store.UpdateTask(s.slot, key, CompletedPatch(completed));
    Session(step.slot, Page.HandleCompleteTask(s.tasks, key, completed, step.outcome))
  }

  /** Editing a task: `updateTask(key, updates)`, then `handleUpdateTask` on its outcome. */
  function UpdateTask(s: Session, key: Key, updates: TaskPatch): Session {
    var step := Store.UpdateTask(s.slot, key, updates);
    Session(step.slot, Page.HandleUpdateTask(s.tasks, key, step.outcome))
  }

  /** Deleting a task: `deleteTask(key)`, then `handleDeleteTask` on its outcome. */
  function DeleteTask(s: Session, key: Key): Session {
    var step := Store.DeleteTask(s.slot, key);
    Session(step.slot, Page.HandleDeleteTask(s.tasks, key, step.outcome))
  }

  /** The example tasks a cold slot is seeded with are keyed as the local store keys tasks. */
  lemma MockTasksLocallyKeyed()
    ensures LocallyKeyed(Store.MockTasks)
  {
  }

  /** In a locally keyed collection, the page's rule and the store's rule agree on a defined key. */
  lemma {:induction false} MatchRulesAgree(tasks: seq<Task>, key: Key)
    requires LocallyKeyed(tasks) && key.Some?
    ensures forall j :: 0 <= j < |tasks| ==> (Page.Matches(tasks[j], key) <==> tasks[j].id == key)
  {
  }

  /** In a locally keyed collection, a position holding an id is the only one the page's rule matches. */
  lemma {:induction false} OnlyMatchIsAt(tasks: seq<Task>, key: Key, i: nat)
    requires LocallyKeyed(tasks) && key.Some?
    requires i < |tasks| && tasks[i].id == key
    ensures forall j :: 0 <= j < |tasks| ==> (Page.Matches(tasks[j], key) <==> j == i)
  {
    forall j | 0 <= j < |tasks| && j != i ensures tasks[j].id != key {
      if j < i {
        assert IdOf(tasks[j]) != IdOf(tasks[i]);
      } else {
        assert IdOf(tasks[i]) != IdOf(tasks[j]);
      }
    }
  }

  /** Rewriting one position without touching its identifiers keeps a collection locally keyed. */
  lemma {:induction false} ReplaceKeepsKeyed(tasks: seq<Task>, i: nat, t: Task)
    requires LocallyKeyed(tasks) && i < |tasks|
    requires t.id == tasks[i].id && t.altId == tasks[i].altId
    ensures LocallyKeyed(tasks[i := t])
  {
    var u := tasks[i := t];
    forall j, k | 0 <= j < k < |u| ensures IdOf(u[j]) != IdOf(u[k]) {
      assert IdOf(u[j]) == IdOf(tasks[j]) && IdOf(u[k]) == IdOf(tasks[k]);
    }
  }

  /** Adding keeps the page mirroring the store, and keeps the collection locally keyed when the clock id is fresh. */
  lemma {:induction false} AddTaskKeepsKeyed(s: Session, data: TaskFormData, clockId: string)
    requires Mirrors(s) && LocallyKeyed(s.tasks) && FreshId(s.tasks, clockId)
    ensures Mirrors(AddTask(s, data, clockId))
    ensures LocallyKeyed(AddTask(s, data, clockId).tasks)
  {
    var ts := s.tasks;
    var r := AddTask(s, data, clockId).tasks;
    assert r == ts + [Store.NewTask(data, clockId)];
    forall j, k | 0 <= j < k < |r| ensures IdOf(r[j]) != IdOf(r[k]) {
      if k < |ts| {
        assert IdOf(ts[j]) != IdOf(ts[k]);
      } else {
        assert r[j] == ts[j];
      }
    }
  }

  /** Completing a task by a defined key keeps the page mirroring the store and the collection locally keyed. */
  lemma {:induction false} CompleteTaskKeepsMirror(s: Session, key: Key, completed: bool)
    requires Mirrors(s) && LocallyKeyed(s.tasks) && key.Some?
    ensures Mirrors(CompleteTask(s, key, completed))
    ensures LocallyKeyed(CompleteTask(s, key, completed).tasks)
  {
    var ts := s.tasks;
    var found := FirstIndex(HasId(key), ts);
    if found.Some? {
      var i := found.value;
      var merged := Store.Merge(ts[i], CompletedPatch(completed));
      Store.UpdateTaskAt(s.slot, key, CompletedPatch(completed), i);
      Store.MergeCompleted(ts[i], completed);
      OnlyMatchIsAt(ts, key, i);
      var r := CompleteTask(s, key, completed);
      assert r.tasks == ts[i := merged];
      ReplaceKeepsKeyed(ts, i, merged);
    }
  }

  /** Editing a task by a defined key keeps the page mirroring the store, whatever the update sets; an update
      that sets no identifier also keeps the collection locally keyed. */
  lemma {:induction false} UpdateTaskKeepsMirror(s: Session, key: Key, updates: TaskPatch)
    requires Mirrors(s) && LocallyKeyed(s.tasks) && key.Some?
    ensures Mirrors(UpdateTask(s, key, updates))
    ensures updates.id.None? && updates.altId.None? ==> LocallyKeyed(UpdateTask(s, key, updates).tasks)
  {
    var ts := s.tasks;
    var found := FirstIndex(HasId(key), ts);
    if found.Some? {
      var i := found.value;
      var merged := Store.Merge(ts[i], updates);
      Store.UpdateTaskAt(s.slot, key, updates, i);
      OnlyMatchIsAt(ts, key, i);
      var r := UpdateTask(s, key, updates);
      assert r.tasks == ts[i := merged];
      if updates.id.None? && updates.altId.None? {
        ReplaceKeepsKeyed(ts, i, merged);
      }
    }
  }

  /** Deleting by a defined key keeps the page mirroring the store and the collection locally keyed. */
  lemma {:induction false} DeleteTaskKeepsMirror(s: Session, key: Key)
    requires Mirrors(s) && LocallyKeyed(s.tasks) && key.Some?
    ensures Mirrors(DeleteTask(s, key))
    ensures LocallyKeyed(DeleteTask(s, key).tasks)
  {
    var ts := s.tasks;
    MatchRulesAgree(ts, key);
    forall x | x in ts ensures Page.Unmatched(key)(x) == Store.LacksId(key)(x) {
      var j :| 0 <= j < |ts| && ts[j] == x;
    }
    FilterCongruent(Page.Unmatched(key), Store.LacksId(key), ts);
    FilterDistinctBy(Store.LacksId(key), IdOf, ts);
    var r := DeleteTask(s, key).tasks;
    forall j | 0 <= j < |r| ensures r[j].id.Some? && r[j].altId.None? {
      var k :| 0 <= k < |ts| && ts[k] == r[j];
    }
  }

  /** Without distinct ids the mirror breaks: two tasks created in the same millisecond share an id, the store
      completes only the first while the page completes both. */
  lemma DuplicateIdsBreakMirror()
    ensures var t := Task(None, Some("1700000000000"), "a", "", "2025-01-01", "work", false);
      var s := Session(Some([t, t]), [t, t]);
      && Mirrors(s)
      && !Mirrors(CompleteTask(s, t.id, true))
  {
    var t := Task(None, Some("1700000000000"), "a", "", "2025-01-01", "work", false);
    var s := Session(Some([t, t]), [t, t]);
    var r := CompleteTask(s, t.id, true);
    assert r.slot.value[1] == t;
    assert r.tasks[1] == t.(completed := true);
  }

  /** A user action on the page. Positions address the page's collection; a click on a visible task is a click on
      one of its elements, since the visible tasks are a subsequence of it. */
  datatype Action =
    | Submit(form: TaskFormData, clockId: string)
    | Check(at: nat, checked: bool)
    | Edit(at: nat, form: TaskFormData)
    | Remove(at: nat)

  /** Hands a task item's request to the matching page handler. */
  function Dispatch(s: Session, request: TaskItem.Request): Session {
    match request
    case Complete(key, completed) => CompleteTask(s, key, completed)
    case Update(key, updates) => UpdateTask(s, key, updates)
    case Delete(key) => DeleteTask(s, key)
  }

  /** One action: both forms go through the title check first; a position past the end does nothing. */
  function Step(s: Session, action: Action): Session {
    match action
    case Submit(form, clockId) =>
      (match TaskForm.HandleSubmit(form)
       case None => s
       case Some(data) => AddTask(s, data, clockId))
    case Check(at, checked) =>
      if at < |s.tasks| then Dispatch(s, TaskItem.OnCheckedChange(s.tasks[at], checked)) else s
    case Edit(at, form) =>
      if at < |s.tasks| then
        (match TaskForm.HandleSubmit(form)
         case None => s
         case Some(data) => Dispatch(s, TaskItem.OnEditSubmit(s.tasks[at], data)))
      else s
    case Remove(at) =>
      if at < |s.tasks| then Dispatch(s, TaskItem.OnDeleteConfirm(s.tasks[at])) else s
  }

  /** The actions applied one after another. */
  function Run(s: Session, actions: seq<Action>): Session
    decreases |actions|
  {
    if |actions| == 0 then s else Run(Step(s, actions[0]), actions[1..])
  }

  /** Every submitted creation along the run gets a clock id no task held at that moment has. */
  ghost predicate FreshClocks(s: Session, actions: seq<Action>)
    decreases |actions|
  {
    |actions| == 0 ||
    ((actions[0].Submit? ==> FreshId(s.tasks, actions[0].clockId)) && FreshClocks(Step(s, actions[0]), actions[1..]))
  }

  /** Checking or unchecking the task at a position keeps the mirror and the keying. */
  lemma {:induction false} CheckKeepsMirror(s: Session, at: nat, checked: bool)
    requires Mirrors(s) && LocallyKeyed(s.tasks)
    ensures Mirrors(Step(s, Check(at, checked))) && LocallyKeyed(Step(s, Check(at, checked)).tasks)
  {
    if at < |s.tasks| {
      CompleteTaskKeepsMirror(s, s.tasks[at].id, checked);
    }
  }

  /** Submitting the edit form of the task at a position keeps the mirror and the keying. */
  lemma {:induction false} EditKeepsMirror(s: Session, at: nat, form: TaskFormData)
    requires Mirrors(s) && LocallyKeyed(s.tasks)
    ensures Mirrors(Step(s, Edit(at, form))) && LocallyKeyed(Step(s, Edit(at, form)).tasks)
  {
    if at < |s.tasks| && TaskForm.HandleSubmit(form).Some? {
      UpdateTaskKeepsMirror(s, s.tasks[at].id, FormPatch(form));
    }
  }

  /** Confirming the deletion of the task at a position keeps the mirror and the keying. */
  lemma {:induction false} RemoveKeepsMirror(s: Session, at: nat)
    requires Mirrors(s) && LocallyKeyed(s.tasks)
    ensures Mirrors(Step(s, Remove(at))) && LocallyKeyed(Step(s, Remove(at)).tasks)
  {
    if at < |s.tasks| {
      DeleteTaskKeepsMirror(s, s.tasks[at].id);
    }
  }

  /** One action keeps the page mirroring the store and the collection locally keyed. */
  lemma {:induction false} StepKeepsMirror(s: Session, action: Action)
    requires Mirrors(s) && LocallyKeyed(s.tasks)
    requires action.Submit? ==> FreshId(s.tasks, action.clockId)
    ensures Mirrors(Step(s, action)) && LocallyKeyed(Step(s, action).tasks)
  {
    match action
    case Submit(form, clockId) =>
      if TaskForm.HandleSubmit(form).Some? {
        AddTaskKeepsKeyed(s, form, clockId);
      }
    case Check(at, checked) => CheckKeepsMirror(s, at, checked);
    case Edit(at, form) => EditKeepsMirror(s, at, form);
    case Remove(at) => RemoveKeepsMirror(s, at);
  }

  /** Any run of actions with fresh clock ids keeps the page mirroring the store and the collection locally keyed. */
  lemma {:induction false} RunKeepsMirror(s: Session, actions: seq<Action>)
    requires Mirrors(s) && LocallyKeyed(s.tasks) && FreshClocks(s, actions)
    ensures Mirrors(Run(s, actions)) && LocallyKeyed(Run(s, actions).tasks)
    decreases |actions|
  {
    if |actions| > 0 {
      StepKeepsMirror(s, actions[0]);
      RunKeepsMirror(Step(s, actions[0]), actions[1..]);
    }
  }

  /** A session opened on a cold slot, or on a slot saved with locally keyed tasks, mirrors the store after any
      run of actions with fresh clock ids. */
  lemma OpenedSessionMirrorsStore(slot: Store.Slot, actions: seq<Action>)
    requires slot.Some? ==> LocallyKeyed(slot.value)
    requires FreshClocks(Open(slot), actions)
    ensures Mirrors(Run(Open(slot), actions))
  {
    MockTasksLocallyKeyed();
    RunKeepsMirror(Open(slot), actions);
  }

  /** A submitted task that reaches the store has a title with a non-whitespace character, is not completed,
      and carries the clock id. */
  lemma SubmittedTaskIsValid(s: Session, form: TaskFormData, clockId: string)
    requires TaskForm.HandleSubmit(form).Some?
    ensures var after := Step(s, Submit(form, clockId));
      && |after.tasks| == |s.tasks| + 1
      && var t := after.tasks[|s.tasks|];
      && !IsBlank(t.title) && !t.completed && t.id == Some(clockId)
  {
  }

  /** The edit form of a task opens with the task's own data; submitting it untouched passes the title check
      unchanged whenever the task's title is not blank, and the update it forwards leaves the task as it is. */
  lemma UnchangedEditFormIsNoop(t: Task, today: string)
    requires !IsBlank(t.title)
    ensures var form := TaskForm.InitialFormData(Some(TaskItem.EditFormData(t)), today);
      && TaskForm.HandleSubmit(form) == Some(TaskItem.EditFormData(t))
      && Store.Merge(t, TaskItem.OnEditSubmit(t, form).updates) == t
  {
    TaskItem.UnchangedEditIsNoop(t);
  }

  /** In a mirrored, locally keyed session, submitting a task's edit form untouched leaves the store and the
      page exactly as they were. */
  lemma {:induction false} UnchangedEditLeavesSession(s: Session, at: nat, today: string)
    requires Mirrors(s) && LocallyKeyed(s.tasks)
    requires at < |s.tasks| && !IsBlank(s.tasks[at].title)
    ensures Step(s, Edit(at, TaskForm.InitialFormData(Some(TaskItem.EditFormData(s.tasks[at])), today))) == s
  {
    var ts := s.tasks;
    var t := ts[at];
    var form := TaskForm.InitialFormData(Some(TaskItem.EditFormData(t)), today);
    UnchangedEditFormIsNoop(t, today);
    OnlyMatchIsAt(ts, t.id, at);
    Store.UpdateTaskAt(s.slot, t.id, FormPatch(form), at);
    assert ts[at := t] == ts;
    var r := UpdateTask(s, t.id, FormPatch(form));
    assert r.tasks == ts;
  }
}
