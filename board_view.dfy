/** The board's derived view: the three-way filter and the four-key sort
    the top-level component applies to the store's task list. */
module BoardView {
  import opened TaskModel
  import opened Text

  /** The status select's value: "all", one status, or the empty value of
      its placeholder option, which no task's status equals. */
  datatype StatusFilter = AnyStatus | OnlyStatus(status: Status) | NoStatus

  /** The priority select's value, likewise with its placeholder's "". */
  datatype PriorityFilter = AnyPriority | OnlyPriority(priority: Priority) | NoPriority

  /** The search box, the status select and the priority select. */
  datatype Criteria = Criteria(searchTerm: string, status: StatusFilter, priority: PriorityFilter)

  /** `task.description || ''` */
  function DescriptionOrEmpty(t: Task): string {
    match t.description
    case Some(d) => d
    case None => ""
  }

  predicate MatchesSearch(t: Task, term: string) {
    Contains(ToLower(t.title), ToLower(term)) || Contains(ToLower(DescriptionOrEmpty(t)), ToLower(term))
  }

  predicate MatchesStatus(t: Task, f: StatusFilter) {
    f.AnyStatus? || (f.OnlyStatus? && t.status == f.status)
  }

  /** A task without a priority equals no specific priority. */
  predicate MatchesPriority(t: Task, f: PriorityFilter) {
    f.AnyPriority? || (f.OnlyPriority? && t.priority == Some(f.priority))
  }

  predicate Matches(t: Task, c: Criteria) {
    MatchesSearch(t, c.searchTerm) && MatchesStatus(t, c.status) && MatchesPriority(t, c.priority)
  }

  /** `tasks.filter(...)` with the three tests ANDed. */
  function FilterTasks(tasks: seq<Task>, c: Criteria): (r: seq<Task>)
    ensures IsSubsequence(r, tasks)
    ensures forall i :: 0 <= i < |r| ==> Matches(r[i], c)
  {
    if tasks == [] then []
    else if Matches(tasks[0], c) then [tasks[0]] + FilterTasks(tasks[1..], c)
    else FilterTasks(tasks[1..], c)
  }

  /** The search test is a case-insensitive substring test on the title or
      on the description, an absent description reading as "". */
  lemma MatchesSearchSpec(t: Task, term: string)
    ensures MatchesSearch(t, term) <==>
      (exists i :: OccursAt(ToLower(t.title), ToLower(term), i)) ||
      (exists i :: OccursAt(ToLower(DescriptionOrEmpty(t)), ToLower(term), i))
  {
    ContainsSpec(ToLower(t.title), ToLower(term));
    ContainsSpec(ToLower(DescriptionOrEmpty(t)), ToLower(term));
  }

  /** Upper- and lower-case spellings of a search term select the same tasks. */
  lemma SearchIgnoresCase(t: Task, term: string)
    ensures MatchesSearch(t, ToLower(term)) == MatchesSearch(t, term)
  {
    ToLowerIdempotent(term);
  }

  /** An empty search term passes every task; an unprioritised task fails
      every priority filter other than "all". */
  lemma FilterEdgeCases(t: Task, c: Criteria)
    ensures c.searchTerm == "" ==> MatchesSearch(t, c.searchTerm)
    ensures t.priority.None? && c.priority.OnlyPriority? ==> !Matches(t, c)
  {
    EmptyIsContained(ToLower(t.title));
  }

  /** Choosing a select's placeholder option filters by "", which equals
      neither "all" nor any task's status or priority: the board is empty. */
  lemma {:induction false} PlaceholderFilterShowsNothing(tasks: seq<Task>, c: Criteria)
    requires c.status.NoStatus? || c.priority.NoPriority?
    ensures FilterTasks(tasks, c) == []
  {
    if tasks != [] {
      PlaceholderFilterShowsNothing(tasks[1..], c);
    }
  }

  /** Every copy of a task is kept when it passes and dropped when it does not. */
  lemma {:induction false} FilterCounts(tasks: seq<Task>, c: Criteria, t: Task)
    ensures multiset(FilterTasks(tasks, c))[t] == if Matches(t, c) then multiset(tasks)[t] else 0
  {
    if tasks != [] {
      FilterCounts(tasks[1..], c, t);
      assert tasks == [tasks[0]] + tasks[1..];
    }
  }

  lemma FilterKeepsExactly(tasks: seq<Task>, c: Criteria, t: Task)
    ensures t in FilterTasks(tasks, c) <==> t in tasks && Matches(t, c)
  {
    FilterCounts(tasks, c, t);
  }

  /** Filtering an already filtered list changes nothing. */
  lemma {:induction false} FilterIdempotent(tasks: seq<Task>, c: Criteria)
    ensures FilterTasks(FilterTasks(tasks, c), c) == FilterTasks(tasks, c)
  {
    if tasks != [] {
      FilterIdempotent(tasks[1..], c);
      if Matches(tasks[0], c) {
        var r := FilterTasks(tasks, c);
        assert r[0] == tasks[0] && r[1..] == FilterTasks(tasks[1..], c);
      }
    }
  }

  /** With every filter at its default the list passes through whole. */
  lemma {:induction false} DefaultFilterKeepsAll(tasks: seq<Task>)
    ensures FilterTasks(tasks, Criteria("", AnyStatus, AnyPriority)) == tasks
  {
    if tasks != [] {
      FilterEdgeCases(tasks[0], Criteria("", AnyStatus, AnyPriority));
      DefaultFilterKeepsAll(tasks[1..]);
    }
  }

  // ---------------------------------------------------------------------
  // Sorting

  datatype SortKey = ByPriority | ByCreatedAt | ByTitle | ByUpdatedAt | Unrecognized

  /** high = 0, medium = 1, low = 2, absent = 3. */
  function Rank(p: Option<Priority>): (r: nat)
    ensures r <= 3
    ensures r == 3 <==> p.None?
    ensures p == Some(High) <==> r == 0
  {
    match p
    case Some(High) => 0
    case Some(Medium) => 1
    case Some(Low) => 2
    case None => 3
  }

  /** A present timestamp is its time; an absent one counts as 0. */
  function TimeOrZero(d: Option<int>): int {
    match d
    case Some(ms) => ms
    case None => 0
  }

  /** The comparator: negative puts `a` first, positive puts `b` first. */
  function Compare(key: SortKey, a: Task, b: Task): int {
    match key
    case ByPriority => Rank(a.priority) - Rank(b.priority)
    case ByCreatedAt => TimeOrZero(b.createdAt) - TimeOrZero(a.createdAt)
    case ByTitle => LexCompare(a.title, b.title)
    case ByUpdatedAt => TimeOrZero(b.updatedAt) - TimeOrZero(a.updatedAt)
    case Unrecognized => 0
  }

  lemma CompareFlip(key: SortKey, a: Task, b: Task)
    ensures Compare(key, a, b) > 0 ==> Compare(key, b, a) < 0
  {
    if key == ByTitle {
      LexCompareAntisymmetric(a.title, b.title);
    }
  }

  lemma CompareTransitive(key: SortKey, a: Task, b: Task, c: Task)
    requires Compare(key, a, b) <= 0 && Compare(key, b, c) <= 0
    ensures Compare(key, a, c) <= 0
  {
    if key == ByTitle {
      LexCompareTransitive(a.title, b.title, c.title);
    }
  }

  /** Adjacent entries are in comparator order. */
  predicate SortedBy(key: SortKey, s: seq<Task>) {
    forall i :: 0 <= i < |s| - 1 ==> Compare(key, s[i], s[i + 1]) <= 0
  }

  /** Inserts `x` before the first entry it does not compare above. */
  function Insert(key: SortKey, x: Task, t: seq<Task>): (r: seq<Task>)
    ensures |r| == |t| + 1
    ensures multiset(r) == multiset(t) + multiset{x}
    ensures r[0] == x || (t != [] && r[0] == t[0])
  {
    if t == [] || Compare(key, x, t[0]) <= 0 then [x] + t
    else
      assert t == [t[0]] + t[1..];
      [t[0]] + Insert(key, x, t[1..])
  }

  /** A stable insertion sort with the comparator: `[...filtered].sort(cmp)`. */
  function SortTasks(key: SortKey, s: seq<Task>): (r: seq<Task>)
    ensures multiset(r) == multiset(s)
    ensures |r| == |s|
  {
    if s == [] then []
    else
      assert s == [s[0]] + s[1..];
      Insert(key, s[0], SortTasks(key, s[1..]))
  }

  lemma {:induction false} InsertSorted(key: SortKey, x: Task, t: seq<Task>)
    requires SortedBy(key, t)
    ensures SortedBy(key, Insert(key, x, t))
  {
    if t != [] && Compare(key, x, t[0]) > 0 {
      CompareFlip(key, x, t[0]);
      var rest := Insert(key, x, t[1..]);
      assert SortedBy(key, t[1..]);
      InsertSorted(key, x, t[1..]);
      var r := [t[0]] + rest;
      forall i | 0 <= i < |r| - 1 ensures Compare(key, r[i], r[i + 1]) <= 0 {
        if i > 0 {
          assert r[i] == rest[i - 1] && r[i + 1] == rest[i];
        }
      }
    }
  }

  /** The sorted output is in comparator order. */
  lemma {:induction false} SortTasksSorted(key: SortKey, s: seq<Task>)
    ensures SortedBy(key, SortTasks(key, s))
  {
    if s != [] {
      SortTasksSorted(key, s[1..]);
      InsertSorted(key, s[0], SortTasks(key, s[1..]));
    }
  }

  /** An input already in comparator order comes out exactly as it went in. */
  lemma {:induction false} SortTasksKeepsSorted(key: SortKey, s: seq<Task>)
    requires SortedBy(key, s)
    ensures SortTasks(key, s) == s
  {
    if s != [] {
      assert SortedBy(key, s[1..]);
      SortTasksKeepsSorted(key, s[1..]);
      assert s == [s[0]] + s[1..];
    }
  }

  lemma SortIdempotent(key: SortKey, s: seq<Task>)
    ensures SortTasks(key, SortTasks(key, s)) == SortTasks(key, s)
  {
    SortTasksSorted(key, s);
    SortTasksKeepsSorted(key, SortTasks(key, s));
  }

  /** An unrecognised key compares everything equal, so the order is kept. */
  lemma UnrecognizedKeepsOrder(s: seq<Task>)
    ensures SortTasks(Unrecognized, s) == s
  {
    SortTasksKeepsSorted(Unrecognized, s);
  }

  /** Comparator order on adjacent entries extends to every pair. */
  lemma {:induction false} SortedPairwise(key: SortKey, s: seq<Task>)
    requires SortedBy(key, s)
    ensures forall i, j :: 0 <= i < j < |s| ==> Compare(key, s[i], s[j]) <= 0
  {
    if |s| > 1 {
      var tail := s[1..];
      assert SortedBy(key, tail);
      SortedPairwise(key, tail);
      forall i, j | 0 <= i < j < |s| ensures Compare(key, s[i], s[j]) <= 0 {
        if i == 0 && j > 1 {
          assert s[1] == tail[0] && s[j] == tail[j - 1];
          CompareTransitive(key, s[0], s[1], s[j]);
        } else if i > 0 {
          assert s[i] == tail[i - 1] && s[j] == tail[j - 1];
        }
      }
    }
  }

  /** Sorting by priority: rank never decreases along the output. */
  lemma PrioritySortOrder(s: seq<Task>)
    ensures var r := SortTasks(ByPriority, s);
      forall i, j :: 0 <= i < j < |r| ==> Rank(r[i].priority) <= Rank(r[j].priority)
  {
    var r := SortTasks(ByPriority, s);
    SortTasksSorted(ByPriority, s);
    SortedPairwise(ByPriority, r);
    forall i, j | 0 <= i < j < |r| ensures Rank(r[i].priority) <= Rank(r[j].priority) {
      assert Compare(ByPriority, r[i], r[j]) <= 0;
    }
  }

  /** Sorting by creation date: newest first, an undated task counting as 0,
      so no undated task comes before one created at a positive time. */
  lemma CreatedAtSortOrder(s: seq<Task>)
    ensures var r := SortTasks(ByCreatedAt, s);
      (forall i, j :: 0 <= i < j < |r| ==> TimeOrZero(r[i].createdAt) >= TimeOrZero(r[j].createdAt)) &&
      (forall i, j :: 0 <= i < j < |r| && r[i].createdAt.None? ==> TimeOrZero(r[j].createdAt) <= 0)
  {
    var r := SortTasks(ByCreatedAt, s);
    SortTasksSorted(ByCreatedAt, s);
    SortedPairwise(ByCreatedAt, r);
    forall i, j | 0 <= i < j < |r| ensures TimeOrZero(r[i].createdAt) >= TimeOrZero(r[j].createdAt) {
      assert Compare(ByCreatedAt, r[i], r[j]) <= 0;
    }
  }

  /** Sorting by update date: most recently updated first, undated as 0. */
  lemma UpdatedAtSortOrder(s: seq<Task>)
    ensures var r := SortTasks(ByUpdatedAt, s);
      (forall i, j :: 0 <= i < j < |r| ==> TimeOrZero(r[i].updatedAt) >= TimeOrZero(r[j].updatedAt)) &&
      (forall i, j :: 0 <= i < j < |r| && r[i].updatedAt.None? ==> TimeOrZero(r[j].updatedAt) <= 0)
  {
    var r := SortTasks(ByUpdatedAt, s);
    SortTasksSorted(ByUpdatedAt, s);
    SortedPairwise(ByUpdatedAt, r);
    forall i, j | 0 <= i < j < |r| ensures TimeOrZero(r[i].updatedAt) >= TimeOrZero(r[j].updatedAt) {
      assert Compare(ByUpdatedAt, r[i], r[j]) <= 0;
    }
  }

  /** Sorting by title: titles never decrease along the output. */
  lemma TitleSortOrder(s: seq<Task>)
    ensures var r := SortTasks(ByTitle, s);
      forall i, j :: 0 <= i < j < |r| ==> LexCompare(r[i].title, r[j].title) <= 0
  {
    var r := SortTasks(ByTitle, s);
    SortTasksSorted(ByTitle, s);
    SortedPairwise(ByTitle, r);
    forall i, j | 0 <= i < j < |r| ensures LexCompare(r[i].title, r[j].title) <= 0 {
      assert Compare(ByTitle, r[i], r[j]) <= 0;
    }
  }

  /** Two todo tasks, "B" of low and "A" of high priority: both the
      priority key and the title key put "A" first. */
  lemma TwoTaskScenario()
    ensures var b := Task("1", "B", None, Todo, Some(Low), None, None);
      var a := Task("2", "A", None, Todo, Some(High), None, None);
      SortTasks(ByPriority, [b, a]) == [a, b] && SortTasks(ByTitle, [b, a]) == [a, b]
  {
    var b := Task("1", "B", None, Todo, Some(Low), None, None);
    var a := Task("2", "A", None, Todo, Some(High), None, None);
    assert [b, a][1..] == [a];
    assert SortTasks(ByPriority, [a]) == [a] && SortTasks(ByTitle, [a]) == [a];
    assert Compare(ByPriority, b, a) > 0 && Compare(ByTitle, b, a) > 0;
  }

  /** The list the board shows: filter, then sort a copy. */
  function VisibleTasks(tasks: seq<Task>, c: Criteria, key: SortKey): seq<Task> {
    SortTasks(key, FilterTasks(tasks, c))
  }

  /** The shown list holds exactly the passing tasks, each as often as in
      the store, in comparator order. */
  lemma VisibleTasksSpec(tasks: seq<Task>, c: Criteria, key: SortKey)
    ensures var v := VisibleTasks(tasks, c, key);
      multiset(v) == multiset(FilterTasks(tasks, c)) &&
      SortedBy(key, v) &&
      (forall t :: t in v <==> t in tasks && Matches(t, c))
  {
    var v := VisibleTasks(tasks, c, key);
    SortTasksSorted(key, FilterTasks(tasks, c));
    forall t ensures t in v <==> t in tasks && Matches(t, c) {
      FilterKeepsExactly(tasks, c, t);
      assert t in v <==> t in multiset(v);
    }
  }
}
