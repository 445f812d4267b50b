/**
 * The task list screen: tasks grouped into one table section per priority,
 * and the choices the screen makes for a section's size and header and for
 * a row's symbol, text and colour.
 */
module TaskList {
  import opened Wrappers
  import opened Tasks
  import opened TaskStorage

  /** The order of the sections: important tasks first, then normal ones. */
  const SectionTypesPosition: seq<TaskPriority> := [Important, Normal]

  /** The tasks of one priority, in the order they were given. */
  function OfPriority(ts: seq<Task>, p: TaskPriority): (group: seq<Task>)
    ensures |group| <= |ts|
  {
    if |ts| == 0 then []
    else
      var front := OfPriority(ts[..|ts| - 1], p);
      var last := ts[|ts| - 1];
      if last.priority == p then front + [last] else front
  }

  /** Grouping keeps the input order: the group of a concatenation is the concatenation of the groups. */
  lemma {:induction false} OfPriorityAppend(a: seq<Task>, b: seq<Task>, p: TaskPriority)
    ensures OfPriority(a + b, p) == OfPriority(a, p) + OfPriority(b, p)
    decreases |b|
  {
    if |b| == 0 {
      assert a + b == a;
    } else {
      var n := |b| - 1;
      assert (a + b)[..|a + b| - 1] == a + b[..n];
      assert (a + b)[|a + b| - 1] == b[n];
      OfPriorityAppend(a, b[..n], p);
    }
  }

  /** A task is in the group of a priority exactly when it is one of the tasks and has that priority. */
  lemma {:induction false} OfPriorityMembers(ts: seq<Task>, p: TaskPriority, t: Task)
    ensures t in OfPriority(ts, p) <==> t in ts && t.priority == p
    decreases |ts|
  {
    if |ts| > 0 {
      var n := |ts| - 1;
      OfPriorityMembers(ts[..n], p, t);
      assert ts == ts[..n] + [ts[n]];
    }
  }

  /** The group sizes add up to the number of tasks. */
  lemma {:induction false} GroupSizesSum(ts: seq<Task>)
    ensures |OfPriority(ts, Important)| + |OfPriority(ts, Normal)| == |ts|
    decreases |ts|
  {
    if |ts| > 0 {
      GroupSizesSum(ts[..|ts| - 1]);
    }
  }

  /** Together the two groups hold each task exactly as many times as the input does. */
  lemma {:induction false} GroupsPartition(ts: seq<Task>)
    ensures multiset(OfPriority(ts, Important)) + multiset(OfPriority(ts, Normal)) == multiset(ts)
    decreases |ts|
  {
    if |ts| > 0 {
      var n := |ts| - 1;
      var front, last := ts[..n], ts[n];
      GroupsPartition(front);
      assert ts == front + [last];
      assert multiset(ts) == multiset(front) + multiset{last};
    }
  }

  /** Grouping a group again changes nothing, and a sequence of one priority is its own group. */
  lemma {:induction false} OfPriorityOwnGroup(ts: seq<Task>, p: TaskPriority)
    requires forall i :: 0 <= i < |ts| ==> ts[i].priority == p
    ensures OfPriority(ts, p) == ts
    decreases |ts|
  {
    if |ts| > 0 {
      var n := |ts| - 1;
      var front := ts[..n];
      assert forall i :: 0 <= i < n ==> front[i] == ts[i];
      OfPriorityOwnGroup(front, p);
      assert ts == front + [ts[n]];
    }
  }

  /** The two groups of a task sequence, keyed by priority. */
  function Sections(ts: seq<Task>): map<TaskPriority, seq<Task>>
  {
    map[Important := OfPriority(ts, Important), Normal := OfPriority(ts, Normal)]
  }

  /** Appending a task to the input appends it to the group of its priority and leaves the other group alone. */
  lemma SectionsAppend(ts: seq<Task>, t: Task)
    ensures t.priority in Sections(ts)
    ensures Sections(ts + [t]) == Sections(ts)[t.priority := Sections(ts)[t.priority] + [t]]
  {
    var ts' := ts + [t];
    assert ts'[..|ts'| - 1] == ts;
    match t.priority
    case Important =>
      assert Sections(ts') == map[Important := OfPriority(ts, Important) + [t], Normal := OfPriority(ts, Normal)];
    case Normal =>
      assert Sections(ts') == map[Important := OfPriority(ts, Important), Normal := OfPriority(ts, Normal) + [t]];
  }

  /** A map with an empty list for each of the two priorities is the grouping of no tasks. */
  lemma EmptySections(m: map<TaskPriority, seq<Task>>)
    requires Important in m && m[Important] == []
    requires Normal in m && m[Normal] == []
    ensures m == Sections([])
  {
    PriorityMapKeys(m);
  }

  /** The symbol shown before a task: an empty circle when planned, a filled one when completed. */
  function SymbolForTask(status: TaskStatus): (symbol: string)
    ensures |symbol| == 1
    ensures symbol == "\U{25CB}" <==> status == Planned
    ensures symbol == "\U{25C9}" <==> status == Completed
  {
    match status
    case Planned => "\U{25CB}"
    case Completed => "\U{25C9}"
  }

  /** The colours a row's text and symbol can take. */
  datatype TextColor = Black | LightGray

  /** Planned tasks are drawn in black, every other task in light gray. */
  function ColorForTask(status: TaskStatus): (color: TextColor)
    ensures color == Black <==> status == Planned
    ensures color == LightGray <==> status == Completed
  {
    match status
    case Planned => Black
    case Completed => LightGray
  }

  /** The header of a section: "Важные" (important) for the important section, "Текущие" (current) for the normal one. */
  function TitleForHeaderInSection(section: int): (title: Option<string>)
    requires 0 <= section < |SectionTypesPosition|
    ensures title.Some?
    ensures title.value == "Важные" <==> SectionTypesPosition[section] == Important
    ensures title.value == "Текущие" <==> SectionTypesPosition[section] == Normal
  {
    var tasksType := SectionTypesPosition[section];
    if tasksType == Important then Some("Важные")
    else if tasksType == Normal then Some("Текущие")
    else None
  }

  /** What a task row shows: the status symbol, the title, and the colour of both labels. */
  datatype CellContent = CellContent(symbol: string, text: string, color: TextColor)

  class TaskListController {
    /** The tasks of the screen, grouped by priority. */
    var tasks: map<TaskPriority, seq<Task>>

    constructor ()
      ensures tasks == map[]
    {
      tasks := map[];
    }

    /** The groups hold exactly the given tasks: one group per section, each the tasks of its priority in input order. */
    ghost predicate Presents(ts: seq<Task>)
      reads this
    {
      tasks == Sections(ts)
    }

    /**
     * Starts each section with an empty group, then appends each stored
     * task to the group of its priority, in the order the store gives them.
     */
    method LoadTasks(stored: Option<seq<Record>>)
      modifies this
      ensures Presents(DecodeAll(StoredRecords(stored)))
      ensures NumberOfSections() == 2
    {
      for i := 0 to |SectionTypesPosition|
        invariant forall j :: 0 <= j < i ==> SectionTypesPosition[j] in tasks && tasks[SectionTypesPosition[j]] == []
      {
        tasks := tasks[SectionTypesPosition[i] := []];
      }
      assert SectionTypesPosition[0] == Important && SectionTypesPosition[1] == Normal;
      EmptySections(tasks);
      var loaded := TaskStorage.LoadTask(stored);
      for k := 0 to |loaded|
        invariant Presents(loaded[..k])
      {
        var task := loaded[k];
        assert loaded[..k + 1] == loaded[..k] + [task];
        SectionsAppend(loaded[..k], task);
        if task.priority in tasks {
          tasks := tasks[task.priority := tasks[task.priority] + [task]];
        }
      }
      assert loaded[..|loaded|] == loaded;
      assert Important in tasks && Normal in tasks;
    }

    /** One table section per group; there are never more than the two priorities. */
    function NumberOfSections(): (n: nat)
      reads this
      ensures n <= |SectionTypesPosition|
      ensures n == (if Important in tasks then 1 else 0) + (if Normal in tasks then 1 else 0)
      ensures n == 2 <==> Important in tasks && Normal in tasks
    {
      PriorityMapKeys(tasks);
      |tasks|
    }

    /** The rows of a section: the size of the group of the section's priority, 0 when there is no such group. */
    function NumberOfRowsInSection(section: int): (n: nat)
      reads this
      requires 0 <= section < |SectionTypesPosition|
      ensures SectionTypesPosition[section] !in tasks ==> n == 0
      ensures SectionTypesPosition[section] in tasks ==> n == |tasks[SectionTypesPosition[section]]|
    {
      var taskType := SectionTypesPosition[section];
      if taskType in tasks then |tasks[taskType]| else 0
    }

    /**
     * The content of a row: nothing when the section has no group, otherwise
     * the symbol, title and colour of the task at that row.
     */
    function CellForRow(section: int, row: nat): (cell: Option<CellContent>)
      reads this
      requires 0 <= section < |SectionTypesPosition|
      requires SectionTypesPosition[section] in tasks ==> row < |tasks[SectionTypesPosition[section]]|
      ensures cell.None? <==> SectionTypesPosition[section] !in tasks
      ensures cell.Some? ==>
        var task := tasks[SectionTypesPosition[section]][row];
        && cell.value.text == task.title
        && cell.value.symbol == SymbolForTask(task.status)
        && (cell.value.symbol == "\U{25CB}" <==> task.status == Planned)
        && (cell.value.symbol == "\U{25C9}" <==> task.status == Completed)
        && (cell.value.color == Black <==> task.status == Planned)
    {
      var taskType := SectionTypesPosition[section];
      if taskType !in tasks then None
      else
        var currentTask := tasks[taskType][row];
        Some(CellContent(SymbolForTask(currentTask.status), currentTask.title, ColorForTask(currentTask.status)))
    }
  }

  /**
   * Once the screen presents a sequence of tasks, section 0 counts the
   * important ones, section 1 the normal ones, and the rows add up to all
   * the tasks.
   */
  lemma RowsCountLoadedTasks(c: TaskListController, ts: seq<Task>)
    requires c.Presents(ts)
    ensures c.NumberOfRowsInSection(0) == |OfPriority(ts, Important)|
    ensures c.NumberOfRowsInSection(1) == |OfPriority(ts, Normal)|
    ensures c.NumberOfRowsInSection(0) + c.NumberOfRowsInSection(1) == |ts|
  {
    GroupSizesSum(ts);
  }

  /** Once the screen presents a sequence of tasks, every task sits in the group of its own priority, and only there. */
  lemma TasksInTheirGroup(c: TaskListController, ts: seq<Task>, t: Task)
    requires c.Presents(ts)
    ensures t.priority in c.tasks && (t in ts <==> t in c.tasks[t.priority])
    ensures forall p :: p in c.tasks && t in c.tasks[p] ==> p == t.priority
  {
    SectionsAppend(ts, t);
    OfPriorityMembers(ts, Important, t);
    OfPriorityMembers(ts, Normal, t);
  }

  /** The screen shows the same groups before and after the tasks are saved and loaded again. */
  lemma GroupsSurviveStorage(ts: seq<Task>, p: TaskPriority)
    ensures OfPriority(DecodeAll(StoredRecords(Some(EncodeAll(ts)))), p) == OfPriority(ts, p)
  {
    DecodeEncodeAll(ts);
  }
}
