/** The task form's state: its initial data, the single-field updates made while typing and picking a
    category, and the title check on submit. */
module TaskForm {
  import opened Wrappers
  import opened Text
  import opened Types

  /** The category a new task starts with. */
  const DefaultCategory: string := "personal"

  /** The data of an empty form. `today` is the UTC calendar date (YYYY-MM-DD) at the time the form module
      was loaded; the clock itself is outside the model. */
  function DefaultFormData(today: string): (r: TaskFormData)
    ensures r.title == "" && r.description == ""
    ensures r.dueDate == today && r.category == DefaultCategory
  {
    TaskFormData("", "", today, DefaultCategory)
  }

  /** The form's starting state: the given initial data when there is some, the empty form otherwise. */
  function InitialFormData(initial: Option<TaskFormData>, today: string): (r: TaskFormData)
    ensures initial.Some? ==> r == initial.value
    ensures initial.None? ==> r == DefaultFormData(today)
  {
    initial.GetOr(DefaultFormData(today))
  }

  /** `form[name]` for the form's four fields; None for any other name. */
  function Field(form: TaskFormData, name: string): Option<string> {
    if name == "title" then Some(form.title)
    else if name == "description" then Some(form.description)
    else if name == "dueDate" then Some(form.dueDate)
    else if name == "category" then Some(form.category)
    else None
  }

  /** `handleChange`: `{ ...prev, [name]: value }`. The named field takes the new value and every other field keeps
      its value; a name that is none of the form's fields leaves them all as they are. */
  function HandleChange(form: TaskFormData, name: string, value: string): (r: TaskFormData)
    ensures Field(form, name).Some? ==> Field(r, name) == Some(value)
    ensures forall other :: other != name ==> Field(r, other) == Field(form, other)
    ensures Field(form, name).None? ==> r == form
  {
    match name
    case "title" => form.(title := value)
    case "description" => form.(description := value)
    case "dueDate" => form.(dueDate := value)
    case "category" => form.(category := value)
    case _ => form
  }

  /** Typing into the same field twice keeps only the last value. */
  lemma HandleChangeLastWins(form: TaskFormData, name: string, first: string, second: string)
    ensures HandleChange(HandleChange(form, name, first), name, second) == HandleChange(form, name, second)
  {
  }

  /** `handleCategoryChange`: sets the category and keeps title, description and due date. */
  function HandleCategoryChange(form: TaskFormData, value: string): (r: TaskFormData)
    ensures r.category == value
    ensures r.title == form.title && r.description == form.description && r.dueDate == form.dueDate
  {
    form.(category := value)
  }

  /** Picking a category is the same single-field update as typing into a field named "category". */
  lemma CategoryChangeIsFieldChange(form: TaskFormData, value: string)
    ensures HandleCategoryChange(form, value) == HandleChange(form, "category", value)
  {
  }

  /** `handleSubmit`: a title that is empty or only whitespace is refused (None: the error toast is shown and
      `onSubmit` is not called); otherwise `onSubmit` receives the form data as it is, title untrimmed. */
  function HandleSubmit(form: TaskFormData): (r: Option<TaskFormData>)
    ensures r.None? <==> IsBlank(form.title)
    ensures r.Some? ==> r.value == form
  {
    if Trim(form.title) == "" then None else Some(form)
  }

  /** The add form submitted as it opened is refused: its title is empty. */
  lemma UntouchedAddFormIsRefused(today: string)
    ensures HandleSubmit(InitialFormData(None, today)).None?
  {
  }
}
