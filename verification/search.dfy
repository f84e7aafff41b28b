/** The search-and-category filter the task page applies to its in-memory collection to derive the
    visible tasks: a case-insensitive substring match of the query against title or description,
    ANDed with an exact category match, where the category "all" lets every task through. */
module Search {
  import opened Wrappers
  import opened Seqs
  import opened Text
  import opened Types

  /** The category selection that disables the category filter. */
  const AllCategories: string := "all"

  /** `text.toLowerCase().includes(query.toLowerCase())`, stated by position rather than by scan. */
  ghost predicate ContainsIgnoringCase(text: string, query: string) {
    exists i: nat :: OccursAt(Lower(text), Lower(query), i)
  }

  /** Whether the filter is meant to show `t`: the query is empty or found in the title or description
      regardless of case, and the category is "all" or equals the task's category exactly. */
  ghost predicate Selected(t: Task, query: string, category: string) {
    && (query == "" || ContainsIgnoringCase(t.title, query) || ContainsIgnoringCase(t.description, query))
    && (category == AllCategories || t.category == category)
  }

  /** The text filter's callback. */
  function QueryTest(query: string): Task -> bool {
    (t: Task) => Includes(Lower(t.title), Lower(query)) || Includes(Lower(t.description), Lower(query))
  }

  /** The category filter's callback. */
  function CategoryTest(category: string): Task -> bool {
    (t: Task) => t.category == category
  }

  /** The text callback accepts a task exactly when the query occurs in its title or description, ignoring case. */
  lemma QueryTestMeaning(query: string)
    ensures forall t: Task :: QueryTest(query)(t) <==>
      ContainsIgnoringCase(t.title, query) || ContainsIgnoringCase(t.description, query)
  {
    forall t: Task
      ensures QueryTest(query)(t) <==>
        ContainsIgnoringCase(t.title, query) || ContainsIgnoringCase(t.description, query)
    {
      IncludesIff(Lower(t.title), Lower(query));
      IncludesIff(Lower(t.description), Lower(query));
    }
  }

  /** The visible tasks for a query and a category selection: first the text filter when the query is
      non-empty, then the category filter when the selection is not "all". */
  function FilterTasks(tasks: seq<Task>, query: string, category: string): (r: seq<Task>)
    ensures IsSubsequence(r, tasks)
    ensures forall i :: 0 <= i < |r| ==> r[i] in tasks && Selected(r[i], query, category)
    ensures forall i :: 0 <= i < |tasks| && Selected(tasks[i], query, category) ==> tasks[i] in r
    ensures query == "" && category == AllCategories ==> r == tasks
  {
    QueryTestMeaning(query);
    var byQuery := if query != "" then Filter(QueryTest(query), tasks) else tasks;
    var result := if category != AllCategories then Filter(CategoryTest(category), byQuery) else byQuery;
    FilterIsSubsequence(QueryTest(query), tasks);
    FilterIsSubsequence(CategoryTest(category), byQuery);
    SubsequenceReflexive(tasks);
    SubsequenceReflexive(byQuery);
    SubsequenceTransitive(result, byQuery, tasks);
    result
  }

  /** The visible tasks hold every copy of each selected task and no copy of any other task. */
  lemma FilterTasksCount(tasks: seq<Task>, query: string, category: string, t: Task)
    ensures multiset(FilterTasks(tasks, query, category))[t]
      == if Selected(t, query, category) then multiset(tasks)[t] else 0
  {
    QueryTestMeaning(query);
    var byQuery := if query != "" then Filter(QueryTest(query), tasks) else tasks;
    FilterCount(QueryTest(query), tasks, t);
    FilterCount(CategoryTest(category), byQuery, t);
  }

  /** Filtering the visible tasks again with the same query and selection changes nothing. */
  lemma FilterTasksIdempotent(tasks: seq<Task>, query: string, category: string)
    ensures var once := FilterTasks(tasks, query, category);
      FilterTasks(once, query, category) == once
  {
    var once := FilterTasks(tasks, query, category);
    QueryTestMeaning(query);
    if query != "" {
      FilterKeepsAll(QueryTest(query), once);
    }
    if category != AllCategories {
      FilterKeepsAll(CategoryTest(category), once);
    }
  }

  /** Two example tasks: one about shopping, one about work. */
  const MilkTask: Task := Task(None, Some("a"), "Buy milk", "", "2025-01-01", "shopping", false)
  const ReportTask: Task := Task(None, Some("b"), "Write report", "", "2025-01-01", "work", false)

  /** "milk" occurs in the title of the shopping task. */
  lemma MilkInShoppingTask()
    ensures QueryTest("milk")(MilkTask)
  {
    assert Lower("milk") == "milk";
    assert Lower("Buy milk") == "buy milk";
    assert OccursAt("buy milk", "milk", 4);
    IncludesIff("buy milk", "milk");
  }

  /** "milk" occurs in neither the title nor the description of the work task. */
  lemma MilkNotInWorkTask()
    ensures !QueryTest("milk")(ReportTask)
  {
    assert Lower("milk") == "milk";
    assert Lower("Write report") == "write report";
    IncludesNeedsFirstChar("write report", "milk");
    IncludesNeedsFirstChar("", "milk");
  }

  /** The query "milk" finds only the shopping task. */
  lemma QueryExample()
    ensures FilterTasks([MilkTask, ReportTask], "milk", AllCategories) == [MilkTask]
  {
    MilkInShoppingTask();
    MilkNotInWorkTask();
    assert Filter(QueryTest("milk"), [MilkTask, ReportTask]) == [MilkTask];
  }

  /** The category "work" finds only the work task. */
  lemma CategoryExample()
    ensures FilterTasks([MilkTask, ReportTask], "", "work") == [ReportTask]
  {
    assert Filter(CategoryTest("work"), [MilkTask, ReportTask]) == [ReportTask];
  }
}
