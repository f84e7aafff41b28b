# Task manager core, modelled in Dafny

This project models the logic under the markup of a small client-side to-do manager ("Task Mate"):

- the **local task store** (`src/services/api.ts`): whole-collection create, read, update and delete over one
  storage slot, seeded with three example tasks when the slot is cold;
- the **search and category filter** the task page applies to its collection (`src/pages/TasksPage.tsx`);
- the **state updates of the page's four handlers** (add, complete, update, delete), applied after the store settles;
- the **task item** helpers (`src/components/TaskItem.tsx`): category class and label, the edit form's initial data,
  and the requests an item forwards;
- the **task form** helpers (`src/components/TaskForm.tsx`): initial data, single-field updates, and the title check on submit.

Everything is a pure function over immutable values. A task is a `Task` datatype whose two identifiers, `_id`
(called `altId` here) and `id`, are both `Option<string>`; the slot is an `Option<seq<Task>>`; each store call is one
atomic step returning the new slot and a `Result`. Identifier arguments are `Option<string>` too, because the item
forwards `task.id`, which may be undefined, and JavaScript's `===` on `string | undefined` is exactly equality of options.

The store and the page deliberately keep two matching rules: the store matches `t.id === key` (first match for
update, every match for delete), the page matches `task.id === key || task._id === key` (every match). The `Session`
module composes the two and proves that the page's collection mirrors the stored collection after any run of user
actions, provided tasks are keyed as the local store keys them (every task has an `id`, none has an `_id`, ids are
distinct) and every creation receives a clock id not already in use. `Session.DuplicateIdsBreakMirror` shows that the
distinct-ids proviso cannot be dropped: two tasks created in the same millisecond share an id, and completing one then
changes one stored task but two tasks on the page.

Modules: `Wrappers` (Option, Result), `Seqs` (filter, find-index, subsequence), `Text` (ASCII case mapping, `includes`,
`trim`), `Types`, `Store`, `Search`, `Page`, `TaskItem`, `TaskForm`, `Session`.

## Behaviour of the code worth knowing

- A cold slot is not empty: the first load seeds it with three example tasks (`Store.LoadTasks`), and every
  operation loads first, so even a failed update or a delete writes the seed.
- Ids are the creation time in milliseconds, which can collide, so the model takes the id as a parameter and proves
  nothing about uniqueness; the mirror theorem assumes fresh ids instead.
- A task has two identifier fields, `_id` and `id`; the page matches either one, the store only `id`.
- A rejected update writes nothing only for a slot that was already saved: on a cold slot the load seeds the
  example tasks before the lookup fails (`Store.UpdateTask` states the slot afterwards as the loaded slot).

## Model

| member | source | states |
|---|---|---|
| Seqs.Filter | src/services/api.ts:98 | the result has only elements of the input that pass the test, and keeps every element that passes |
| Seqs.FirstIndex | src/services/api.ts:80 | None exactly when no element passes; otherwise the position of an element that passes with none before it |
| Text.IncludesIff | src/pages/TasksPage.tsx:52-53 | the scanning `includes` is true exactly when the query occurs at some position |
| Text.Trim | src/components/TaskForm.tsx:40 | the trimmed title is empty exactly when every character is JavaScript whitespace; a non-empty result starts and ends with non-whitespace |
| Store.LoadTasks | src/services/api.ts:36-44 | after a load the slot holds exactly what the load returned; a saved slot is returned as it is; a cold slot yields the three example tasks |
| Store.SaveTasks | src/services/api.ts:46-48 | loading after a save returns exactly the saved collection and writes nothing |
| Store.LoadTasksIdempotent | src/services/api.ts:36-44 | a second load returns the same collection and leaves the slot as the first load left it |
| Store.GetTasks | src/services/api.ts:51-57 | never rejects; resolves with the collection the slot then holds; a cold slot yields the example tasks |
| Store.CreateTask | src/services/api.ts:59-74 | never rejects; the new task has the form's four fields, the clock id, no `_id`, and is not completed; the stored collection is the loaded one with the new task appended last |
| Store.UpdateTask | src/services/api.ts:76-92 | rejects with "Task not found" exactly when no loaded task has that `id`, leaving the slot as the load left it; on success the length is kept and the returned task is stored |
| Store.UpdateTaskAt | src/services/api.ts:80-89 | at the first position with that `id` the merged task replaces the old one, every other position and the length are unchanged, and the promise resolves with the task now stored there |
| Store.MergeEmptyPatch | src/services/api.ts:87 | an update with no fields leaves the task unchanged |
| Store.MergeIdempotent | src/services/api.ts:87 | applying the same update twice equals applying it once |
| Store.MergeCompleted | src/services/api.ts:87 | the update `{ completed }` sets the flag and keeps every other field |
| Store.DeleteTask | src/services/api.ts:94-103 | never rejects; the stored collection is an order-preserving subsequence of the loaded one in which no task has that `id`, and every loaded task with another `id` survives |
| Store.DeleteTaskCount | src/services/api.ts:97-99 | every copy of a task with that `id` is removed and every copy of any other task is kept |
| Store.DeleteAbsentIsNoop | src/services/api.ts:98 | deleting an `id` no loaded task has leaves the loaded collection stored unchanged |
| Store.DeleteTaskIdempotent | src/services/api.ts:94-103 | deleting twice equals deleting once |
| Search.QueryTestMeaning | src/pages/TasksPage.tsx:49-54 | the text callback accepts a task exactly when the lower-cased query occurs in its lower-cased title or description |
| Search.FilterTasks | src/pages/TasksPage.tsx:44-63 | the visible tasks are an order-preserving subsequence of the collection; a task is visible exactly when it matches the query (or the query is empty) and the category (or the selection is "all"); empty query with "all" returns the collection unchanged |
| Search.FilterTasksIdempotent | src/pages/TasksPage.tsx:44-63 | filtering the visible tasks again with the same query and selection changes nothing |
| Search.FilterTasksCount | src/pages/TasksPage.tsx:44-63 | the visible tasks hold every copy of each selected task and no copy of any other task |
| Search.QueryExample | src/pages/TasksPage.tsx:48-55 | of "Buy milk" and "Write report", the query "milk" shows only the first |
| Search.CategoryExample | src/pages/TasksPage.tsx:58-60 | of the same two tasks, the category "work" shows only the second |
| Page.LoadedTasks | src/pages/TasksPage.tsx:23-41 | after the initial load the collection is what the store returned, or empty when the load rejected |
| Page.HandleAddTask | src/pages/TasksPage.tsx:65-81 | on success the created task is appended last and the earlier tasks are unchanged; on rejection nothing changes |
| Page.HandleCompleteTask | src/pages/TasksPage.tsx:83-98 | the length is kept; on success every task matching by `id` or `_id` gets the new flag with its other fields kept and every other task is untouched; on rejection nothing changes |
| Page.HandleCompleteTaskIdempotent | src/pages/TasksPage.tsx:86-90 | completing twice with the same key and flag equals completing once |
| Page.HandleUpdateTask | src/pages/TasksPage.tsx:100-119 | the length is kept; on success every task matching by `id` or `_id` is replaced by the store's task and every other task is untouched; on rejection nothing changes |
| Page.HandleDeleteTask | src/pages/TasksPage.tsx:121-138 | the result is an order-preserving subsequence; on success no remaining task matches by `id` or `_id`; every non-matching task survives; on rejection nothing changes |
| Page.HandleDeleteTaskCount | src/pages/TasksPage.tsx:124-126 | a confirmed delete removes every copy of each matching task and keeps every copy of every other task |
| Page.HandleDeleteTaskIdempotent | src/pages/TasksPage.tsx:124-126 | deleting the same key twice equals deleting it once |
| TaskItem.CategoryClass | src/components/TaskItem.tsx:35-48 | the class is one of five fixed strings; a styled category in any letter case gives "category-" plus its lower-case name; any other string gives "category-other" |
| TaskItem.CategoryClassIgnoresCase | src/components/TaskItem.tsx:36 | the class depends only on the lower-cased category |
| TaskItem.CategoryLabel | src/components/TaskItem.tsx:104 | the label has the category's length, its first character upper-cased and the rest unchanged; an empty category gives an empty label |
| TaskItem.CategoryLabelKeepsClass | src/components/TaskItem.tsx:103-104 | the label lower-cases to the category's lower-case form, so it would get the same class |
| TaskItem.CategoryLabelIdempotent | src/components/TaskItem.tsx:104 | labelling a label changes nothing |
| TaskItem.OnCheckedChange | src/components/TaskItem.tsx:66 | the checkbox forwards the task's `id` and the new flag |
| TaskItem.OnEditSubmit | src/components/TaskItem.tsx:50-53 | the edit submit forwards the task's `id` and the form data, unchanged, as the update |
| TaskItem.OnDeleteConfirm | src/components/TaskItem.tsx:55-58 | the delete confirmation forwards the task's `id` |
| TaskItem.EditFormData | src/components/TaskItem.tsx:121-126 | the edit form starts from the task's title, description, due date and category, verbatim |
| TaskItem.ForwardedKeyMatchesTask | src/components/TaskItem.tsx:50-66 | every forwarded key addresses its own task under both the page's and the store's matching rule |
| TaskItem.UnchangedEditIsNoop | src/components/TaskItem.tsx:121-127 | submitting the edit form unchanged produces an update that leaves the task as it is |
| TaskItem.EditFormShowsSubmittedData | src/components/TaskItem.tsx:121-127 | reopening the edit form on an edited task shows exactly the submitted data |
| TaskForm.DefaultFormData | src/components/TaskForm.tsx:17-22 | the empty form has empty title and description, today's date and the category "personal" |
| TaskForm.InitialFormData | src/components/TaskForm.tsx:25 | the form starts from the given initial data, or from the empty form when there is none |
| TaskForm.HandleChange | src/components/TaskForm.tsx:28-31 | the named field takes the new value, every other field keeps its value, and an unknown name changes nothing |
| TaskForm.HandleChangeLastWins | src/components/TaskForm.tsx:28-31 | typing into the same field twice keeps only the last value |
| TaskForm.HandleCategoryChange | src/components/TaskForm.tsx:33-35 | only the category changes; title, description and due date are kept |
| TaskForm.CategoryChangeIsFieldChange | src/components/TaskForm.tsx:33-35 | picking a category is the same update as a change of the field named "category" |
| TaskForm.HandleSubmit | src/components/TaskForm.tsx:37-50 | the submission is refused exactly when the title is empty or all whitespace; otherwise the form data is passed on unchanged, title untrimmed |
| TaskForm.UntouchedAddFormIsRefused | src/components/TaskForm.tsx:17-25 | the add form submitted as it opened is refused, its title being empty |
| Session.Open | src/pages/TasksPage.tsx:23-41 | after the initial load the page's collection is what the slot holds; a cold slot gives the example tasks |
| Session.AddTask | src/pages/TasksPage.tsx:65-68 | adding keeps the page's collection equal to the stored one |
| Session.MockTasksLocallyKeyed | src/services/api.ts:8-33 | the example tasks all have distinct `id`s and no `_id` |
| Session.MatchRulesAgree | src/pages/TasksPage.tsx:125 | for tasks without `_id` and a defined key, the page's rule and the store's rule select the same tasks |
| Session.OnlyMatchIsAt | src/pages/TasksPage.tsx:88 | with distinct ids and no `_id`, the position holding an id is the only one the page's rule matches |
| Session.AddTaskKeepsKeyed | src/services/api.ts:62-70 | adding with a fresh clock id keeps the page mirroring the store and the ids distinct |
| Session.CompleteTaskKeepsMirror | src/pages/TasksPage.tsx:83-98 | completing by a defined key keeps the page mirroring the store and the ids distinct |
| Session.UpdateTaskKeepsMirror | src/pages/TasksPage.tsx:100-119 | editing by a defined key keeps the page mirroring the store whatever the update sets; an update setting no identifier also keeps the ids distinct |
| Session.DeleteTaskKeepsMirror | src/pages/TasksPage.tsx:121-138 | deleting by a defined key keeps the page mirroring the store and the ids distinct |
| Session.DuplicateIdsBreakMirror | src/services/api.ts:65 | two tasks sharing a clock id make the store complete one while the page completes both |
| Session.CheckKeepsMirror | src/components/TaskItem.tsx:66 | a checkbox click on a task of the page keeps the mirror |
| Session.EditKeepsMirror | src/components/TaskItem.tsx:50-53 | an edit submitted from a task of the page keeps the mirror |
| Session.RemoveKeepsMirror | src/components/TaskItem.tsx:55-58 | a confirmed delete from a task of the page keeps the mirror |
| Session.StepKeepsMirror | src/pages/TasksPage.tsx:65-138 | any single user action with a fresh clock id keeps the mirror and the keying |
| Session.RunKeepsMirror | src/pages/TasksPage.tsx:65-138 | any run of user actions with fresh clock ids keeps the page's collection equal to the stored one |
| Session.OpenedSessionMirrorsStore | src/pages/TasksPage.tsx:23-41 | a page opened on a cold slot, or on a slot of locally keyed tasks, mirrors the store after any run with fresh clock ids |
| Session.SubmittedTaskIsValid | src/components/TaskForm.tsx:37-50 | a task that passes the title check and is created has a title with a non-whitespace character, the clock id, and is not completed |
| Session.UnchangedEditFormIsNoop | src/components/TaskItem.tsx:121-127 | an edit form opened on a task with a non-blank title and submitted untouched passes the title check with the task's own data, and the update it forwards leaves the task as it is |
| Session.UnchangedEditLeavesSession | src/components/TaskItem.tsx:50-53 | in a mirrored, locally keyed session, submitting a task's edit form untouched leaves the store and the page exactly as they were |

## Left out

- Rendering, dialogs, toasts and the loading indicator: view concerns with no state beyond what the reducers model.
- `SearchAndFilter.tsx` and `TaskList.tsx`: they only wire values to callbacks; the list key `_id || id` affects rendering only.
- The 300 ms delay and promise settlement order: each store call is one atomic step; requests in flight at the same time are not modelled.
- Local storage and JSON: the slot is an `Option<seq<Task>>`; serialisation is not modelled (it drops undefined fields, which the `Option` fields already represent).
- `Date.now().toString()`: the clock id is a parameter of `Store.CreateTask`; uniqueness is neither provided nor proved.
- `formatDate` and the date library it uses, and the `new Date()` default due date, which is the `today` parameter of `TaskForm.DefaultFormData` (the code computes it once, when the form module loads).
- The remote REST store: the source contains only the local store.
- Text.Lower: maps only the ASCII letters; JavaScript's `toLowerCase` also maps other letters (the Kelvin sign lowers to "k", so "WORK" would get the class "category-work" in the browser but not here).
- TaskItem.CategoryLabel: upper-cases only an ASCII first character; JavaScript may turn one character into several (for "ß") and `charAt` works on UTF-16 code units rather than code points.
- Store.Merge: an update object whose key is present with the value `undefined` overrides the field in JavaScript; `TaskPatch` only distinguishes absent from present-with-a-value.
- TaskForm.HandleChange: a field name outside the four form fields adds a new key to the JavaScript object; the model, having only the four fields, shows it as no change.
- Store.LoadTasks: a cold load in the code returns the module's seed array itself, not a copy, so while the slot is cold `createTask`'s push and `updateTask`'s assignment also change the seed, and the page's collection shares that array until its first update; a later cold load (possible only if the slot is cleared outside the program) would return the changed seed and could show a new task twice. The model treats the seed as a constant and assumes the slot changes only through the store's own operations.
