/** The task list dialog: the tasks split into the current and the completed ones, shown
    on two tabs. */
module TaskList {
  import opened Text
  import Seqs

  datatype Task = Task(id: int, title: string, dueDate: string, priority: string, status: string)

  predicate IsCompleted(t: Task) { t.status == "Completed" }

  /** `currentTasks`: the tasks whose status is not `Completed`, in order. */
  function CurrentTasks(tasks: seq<Task>): seq<Task> {
    Seqs.Filter(tasks, (t: Task) => !IsCompleted(t))
  }

  /** `completedTasks`: the tasks whose status is `Completed`, in order. */
  function CompletedTasks(tasks: seq<Task>): seq<Task> {
    Seqs.Filter(tasks, (t: Task) => IsCompleted(t))
  }

  /** The two lists keep the order of the tasks, hold exactly the tasks of their kind,
      and together hold every task exactly as often as the input does. */
  lemma Partition(tasks: seq<Task>)
    ensures Seqs.IsSubsequence(CurrentTasks(tasks), tasks)
    ensures Seqs.IsSubsequence(CompletedTasks(tasks), tasks)
    ensures forall t :: t in CurrentTasks(tasks) <==> t in tasks && t.status != "Completed"
    ensures forall t :: t in CompletedTasks(tasks) <==> t in tasks && t.status == "Completed"
    ensures multiset(CurrentTasks(tasks)) + multiset(CompletedTasks(tasks)) == multiset(tasks)
    ensures |CurrentTasks(tasks)| + |CompletedTasks(tasks)| == |tasks|
  {
    var cur := (t: Task) => !IsCompleted(t);
    var done := (t: Task) => IsCompleted(t);
    Seqs.FilterIsSubsequence(tasks, cur);
    Seqs.FilterIsSubsequence(tasks, done);
    forall t ensures t in CurrentTasks(tasks) <==> t in tasks && cur(t) {
      Seqs.FilterMembership(tasks, cur, t);
    }
    forall t ensures t in CompletedTasks(tasks) <==> t in tasks && done(t) {
      Seqs.FilterMembership(tasks, done, t);
    }
    Seqs.FilterSplits(tasks, cur, done);
    assert multiset(CurrentTasks(tasks)) + multiset(CompletedTasks(tasks)) == multiset(tasks);
  }

  datatype Tab = Current | Completed

  /** The tab group's `onChange`: index 0 is the current tab, any other index the
      completed one. */
  function SelectTab(index: int): (tab: Tab)
    ensures tab == Current <==> index == 0
  {
    if index == 0 then Current else Completed
  }

  /** The tasks a tab lists. */
  function TabTasks(tab: Tab, tasks: seq<Task>): seq<Task> {
    match tab
    case Current => CurrentTasks(tasks)
    case Completed => CompletedTasks(tasks)
  }

  /** Whatever index the tab group reports, the selected tab lists, in order, exactly the
      tasks whose completion matches it: open tasks for index 0, completed ones otherwise. */
  lemma TabSelection(tasks: seq<Task>, index: int)
    ensures Seqs.IsSubsequence(TabTasks(SelectTab(index), tasks), tasks)
    ensures forall t :: t in TabTasks(SelectTab(index), tasks) <==>
              t in tasks && (IsCompleted(t) <==> index != 0)
  {
    Partition(tasks);
  }

  /** The heading of a tab, `<name> (<count>)`. */
  function TabLabel(name: string, count: nat): string {
    name + " (" + NatToString(count) + ")"
  }

  /** The count in a tab heading reads back as the length of that tab's list, and the
      two counts add up to the number of tasks. */
  lemma TabLabelsCount(tasks: seq<Task>)
    ensures var c := TabLabel("Current Tasks", |CurrentTasks(tasks)|);
            AllDigits(c[15..|c| - 1]) && DigitsValue(c[15..|c| - 1]) == |TabTasks(SelectTab(0), tasks)|
    ensures var c := TabLabel("Completed Tasks", |CompletedTasks(tasks)|);
            AllDigits(c[17..|c| - 1]) && DigitsValue(c[17..|c| - 1]) == |TabTasks(SelectTab(1), tasks)|
    ensures |TabTasks(SelectTab(0), tasks)| + |TabTasks(SelectTab(1), tasks)| == |tasks|
  {
    var c := TabLabel("Current Tasks", |CurrentTasks(tasks)|);
    assert c[15..|c| - 1] == NatToString(|CurrentTasks(tasks)|);
    DigitsValueOfNatToString(|CurrentTasks(tasks)|);
    var d := TabLabel("Completed Tasks", |CompletedTasks(tasks)|);
    assert d[17..|d| - 1] == NatToString(|CompletedTasks(tasks)|);
    DigitsValueOfNatToString(|CompletedTasks(tasks)|);
    Partition(tasks);
  }
}
