/** One board column: the tasks of one status, numbered for the drag
    library in the order they arrive. */
module TaskColumn {
  import opened TaskModel
  import BoardView

  datatype Card = Card(task: Task, index: nat)

  /** `tasks.filter(task => task.status === status)` */
  function ColumnTasks(tasks: seq<Task>, status: Status): (r: seq<Task>)
    ensures IsSubsequence(r, tasks)
    ensures forall i :: 0 <= i < |r| ==> r[i].status == status
  {
    if tasks == [] then []
    else if tasks[0].status == status then [tasks[0]] + ColumnTasks(tasks[1..], status)
    else ColumnTasks(tasks[1..], status)
  }

  /** `.map((task, index) => <TaskCard task index />)` over the column's tasks. */
  function Cards(tasks: seq<Task>, status: Status): (r: seq<Card>)
    ensures |r| == |ColumnTasks(tasks, status)|
    ensures forall i :: 0 <= i < |r| ==> r[i].index == i && r[i].task.status == status
  {
    var shown := ColumnTasks(tasks, status);
    seq(|shown|, i requires 0 <= i < |shown| => Card(shown[i], i))
  }

  function CardTasks(cards: seq<Card>): seq<Task> {
    seq(|cards|, i requires 0 <= i < |cards| => cards[i].task)
  }

  /** The cards show the input tasks of that status, in input order, each
      as often as it occurs: nothing of the column's status is dropped. */
  lemma {:induction false} ColumnCounts(tasks: seq<Task>, status: Status, t: Task)
    ensures multiset(ColumnTasks(tasks, status))[t] == if t.status == status then multiset(tasks)[t] else 0
  {
    if tasks != [] {
      ColumnCounts(tasks[1..], status, t);
      assert tasks == [tasks[0]] + tasks[1..];
    }
  }

  lemma CardsSpec(tasks: seq<Task>, status: Status)
    ensures var cards := Cards(tasks, status);
      IsSubsequence(CardTasks(cards), tasks) &&
      (forall t :: t in CardTasks(cards) <==> t in tasks && t.status == status)
  {
    var cards := Cards(tasks, status);
    assert CardTasks(cards) == ColumnTasks(tasks, status);
    forall t ensures t in CardTasks(cards) <==> t in tasks && t.status == status {
      ColumnCounts(tasks, status, t);
    }
  }

  /** Two different columns never show the same task. */
  lemma ColumnsDisjoint(tasks: seq<Task>, s1: Status, s2: Status, t: Task)
    requires s1 != s2
    ensures !(t in ColumnTasks(tasks, s1) && t in ColumnTasks(tasks, s2))
  {
    ColumnCounts(tasks, s1, t);
    ColumnCounts(tasks, s2, t);
  }

  /** The three columns together show every task exactly once. */
  lemma {:induction false} ColumnsPartition(tasks: seq<Task>)
    ensures |ColumnTasks(tasks, Todo)| + |ColumnTasks(tasks, InProgress)| + |ColumnTasks(tasks, Done)| == |tasks|
  {
    if tasks != [] {
      ColumnsPartition(tasks[1..]);
    }
  }

  /** A column is the board filter with only the status test set. */
  lemma {:induction false} ColumnIsStatusFilter(tasks: seq<Task>, status: Status)
    ensures ColumnTasks(tasks, status) ==
      BoardView.FilterTasks(tasks, BoardView.Criteria("", BoardView.OnlyStatus(status), BoardView.AnyPriority))
  {
    if tasks != [] {
      BoardView.FilterEdgeCases(tasks[0], BoardView.Criteria("", BoardView.OnlyStatus(status), BoardView.AnyPriority));
      ColumnIsStatusFilter(tasks[1..], status);
    }
  }
}
