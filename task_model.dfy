/** The task record shared by the board's front end and its file-backed
    service, with the sequence notions every other module uses. */
module TaskModel {

  datatype Option<+T> = None | Some(value: T)

  datatype Status = Todo | InProgress | Done

  datatype Priority = Low | Medium | High

  /** A task. Timestamps are milliseconds since the epoch; description,
      priority and both timestamps may be absent. */
  datatype Task = Task(
    id: string,
    title: string,
    description: Option<string>,
    status: Status,
    priority: Option<Priority>,
    createdAt: Option<int>,
    updatedAt: Option<int>)

  /** What the new-task form hands to the store: a task without an id. */
  datatype Draft = Draft(
    title: string,
    description: Option<string>,
    status: Status,
    priority: Option<Priority>)

  /** `b` is `a` with at most its status changed. */
  predicate SameExceptStatus(a: Task, b: Task) {
    a.id == b.id && a.title == b.title && a.description == b.description &&
    a.priority == b.priority && a.createdAt == b.createdAt && a.updatedAt == b.updatedAt
  }

  predicate HasId(tasks: seq<Task>, id: string) {
    exists j :: 0 <= j < |tasks| && tasks[j].id == id
  }

  /** No two entries share an id. */
  predicate UniqueIds(tasks: seq<Task>) {
    forall i, j :: 0 <= i < j < |tasks| ==> tasks[i].id != tasks[j].id
  }

  /** Position of the first task with the given id, or `|tasks|` when there is none. */
  function IndexOfId(tasks: seq<Task>, id: string): (k: nat)
    ensures k <= |tasks|
    ensures k < |tasks| ==> tasks[k].id == id
    ensures forall j :: 0 <= j < k ==> tasks[j].id != id
    ensures k == |tasks| <==> !HasId(tasks, id)
  {
    if tasks == [] then 0
    else if tasks[0].id == id then 0
    else 1 + IndexOfId(tasks[1..], id)
  }

  /** `a` is obtained from `b` by deleting entries, keeping the order of the rest. */
  predicate IsSubsequence<T(==)>(a: seq<T>, b: seq<T>)
    decreases |b|
  {
    a == [] ||
    (|b| > 0 && ((a[0] == b[0] && IsSubsequence(a[1..], b[1..])) || IsSubsequence(a, b[1..])))
  }

  lemma {:induction false} SubsequenceOfSelf<T>(s: seq<T>)
    ensures IsSubsequence(s, s)
  {
    if s != [] {
      SubsequenceOfSelf(s[1..]);
    }
  }

  lemma {:induction false} SubsequenceMembers<T>(a: seq<T>, b: seq<T>)
    requires IsSubsequence(a, b)
    ensures forall x :: x in a ==> x in b
    decreases |b|
  {
    if a != [] {
      if a[0] == b[0] && IsSubsequence(a[1..], b[1..]) {
        SubsequenceMembers(a[1..], b[1..]);
        forall x | x in a ensures x in b {
          if x != a[0] { assert x in a[1..]; }
        }
      } else {
        SubsequenceMembers(a, b[1..]);
      }
    }
  }

  /** Deleting entries cannot create a duplicate id. */
  lemma {:induction false} SubsequenceUniqueIds(a: seq<Task>, b: seq<Task>)
    requires IsSubsequence(a, b) && UniqueIds(b)
    ensures UniqueIds(a)
    decreases |b|
  {
    if a != [] {
      assert UniqueIds(b[1..]) by {
        forall i, j | 0 <= i < j < |b| - 1 ensures b[1..][i].id != b[1..][j].id {
          assert b[1..][i] == b[i + 1] && b[1..][j] == b[j + 1];
        }
      }
      if a[0] == b[0] && IsSubsequence(a[1..], b[1..]) {
        SubsequenceUniqueIds(a[1..], b[1..]);
        SubsequenceMembers(a[1..], b[1..]);
        forall i, j | 0 <= i < j < |a| ensures a[i].id != a[j].id {
          if i == 0 {
            assert a[j] == a[1..][j - 1];
            assert a[j] in b[1..];
            var m :| 0 <= m < |b| - 1 && b[1..][m] == a[j];
            assert b[m + 1] == a[j];
          } else {
            assert a[i] == a[1..][i - 1] && a[j] == a[1..][j - 1];
          }
        }
      } else {
        SubsequenceUniqueIds(a, b[1..]);
      }
    }
  }
}
