/** The per-task view logic: the CSS class and label of a task's category, the data the edit form starts
    from, and the requests the item forwards to the page, always addressed by the task's `id`. */
module TaskItem {
  import opened Text
  import opened Types
  import Page
  import Store

  /** The categories that have their own style, in lower case. */
  const StyledCategories: seq<string> := ["work", "personal", "important", "shopping"]

  /** Every class `CategoryClass` can produce. */
  const CategoryClasses: set<string> :=
    {"category-work", "category-personal", "category-important", "category-shopping", "category-other"}

  /** `getCategoryClass`: a styled category, in any letter case, gets its own class; every other string,
      "other" and the empty string included, falls into "category-other". */
  function CategoryClass(category: string): (r: string)
    ensures r in CategoryClasses
    ensures Lower(category) in StyledCategories ==> r == "category-" + Lower(category)
    ensures Lower(category) !in StyledCategories ==> r == "category-other"
  {
    var c := Lower(category);
    if c == "work" then "category-work"
    else if c == "personal" then "category-personal"
    else if c == "important" then "category-important"
    else if c == "shopping" then "category-shopping"
    else "category-other"
  }

  /** The class depends only on the lower-cased category. */
  lemma CategoryClassIgnoresCase(category: string)
    ensures CategoryClass(Lower(category)) == CategoryClass(category)
  {
    LowerIdempotent(category);
  }

  /** The category label, `category.charAt(0).toUpperCase() + category.slice(1)`: the first character
      upper-cased and the rest as they are; the empty category gives the empty label. */
  function CategoryLabel(category: string): (r: string)
    ensures |r| == |category|
    ensures |category| > 0 ==> r[0] == UpperChar(category[0]) && r[1..] == category[1..]
  {
    if |category| == 0 then "" else [UpperChar(category[0])] + category[1..]
  }

  /** The label lower-cases to the same string as the category, so it would be styled the same. */
  lemma {:induction false} CategoryLabelKeepsClass(category: string)
    ensures Lower(CategoryLabel(category)) == Lower(category)
    ensures CategoryClass(CategoryLabel(category)) == CategoryClass(category)
  {
    if |category| > 0 {
      LowerOfUpper(category[0]);
      assert Lower(CategoryLabel(category))[0] == Lower(category)[0];
    }
  }

  /** Labelling a label changes nothing. */
  lemma CategoryLabelIdempotent(category: string)
    ensures CategoryLabel(CategoryLabel(category)) == CategoryLabel(category)
  {
  }

  /** What the item asks the page to do. */
  datatype Request =
    | Complete(key: Key, completed: bool)
    | Update(key: Key, updates: TaskPatch)
    | Delete(key: Key)

  /** The checkbox handler: forwards the task's `id` and the new flag. */
  function OnCheckedChange(task: Task, checked: bool): (r: Request)
    ensures r.Complete? && r.key == task.id && r.completed == checked
  {
    Complete(task.id, checked)
  }

  /** `handleEditSubmit`: forwards the task's `id` and the submitted form data as the update, unchanged. */
  function OnEditSubmit(task: Task, data: TaskFormData): (r: Request)
    ensures r.Update? && r.key == task.id && r.updates == FormPatch(data)
  {
    Update(task.id, FormPatch(data))
  }

  /** `handleDelete`: forwards the task's `id`. */
  function OnDeleteConfirm(task: Task): (r: Request)
    ensures r.Delete? && r.key == task.id
  {
    Delete(task.id)
  }

  /** The edit form's initial data: the task's title, description, due date and category, verbatim. */
  function EditFormData(task: Task): (r: TaskFormData)
    ensures r.title == task.title && r.description == task.description
    ensures r.dueDate == task.dueDate && r.category == task.category
  {
    TaskFormData(task.title, task.description, task.dueDate, task.category)
  }

  /** Every key the item forwards addresses its own task, under the page's rule and the store's rule alike,
      whether or not the task has an `id`. */
  lemma ForwardedKeyMatchesTask(task: Task, checked: bool, data: TaskFormData)
    ensures var keys := [OnCheckedChange(task, checked).key, OnEditSubmit(task, data).key, OnDeleteConfirm(task).key];
      forall k :: k in keys ==> Page.Matches(task, k) && task.id == k
  {
  }

  /** Submitting the edit form without changing it produces an update that leaves the task as it is. */
  lemma UnchangedEditIsNoop(task: Task)
    ensures Store.Merge(task, OnEditSubmit(task, EditFormData(task)).updates) == task
  {
  }

  /** Reopening the edit form on an edited task shows exactly the data that was submitted. */
  lemma EditFormShowsSubmittedData(task: Task, data: TaskFormData)
    ensures EditFormData(Store.Merge(task, OnEditSubmit(task, data).updates)) == data
  {
  }
}
