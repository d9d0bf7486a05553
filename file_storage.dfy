/** The service's task storage: a JSON file holding the task list, read
    whole, changed in memory and written back by each operation. The file
    is the `file` field; the fresh id and the clock are parameters. */
module FileStorage {
  import opened TaskModel

  /** What reading the file finds: no file, a file that cannot be read or
      decoded, or the stored list. */
  datatype FileState = Missing | Unreadable(reason: string) | Stored(tasks: seq<Task>)

  datatype Result<T> = Ok(value: T) | Err(reason: string)

  /** The record `UpdateTask` writes for `task` into `tasks`: the incoming
      task whole, with `UpdatedAt` set to the clock when its id is found. */
  function UpdatedRecord(tasks: seq<Task>, task: Task, now: int): (w: Task)
    ensures w.id == task.id && w.createdAt == task.createdAt
    ensures HasId(tasks, task.id) ==> w == task.(updatedAt := Some(now))
    ensures !HasId(tasks, task.id) ==> w == task
  {
    if HasId(tasks, task.id) then task.(updatedAt := Some(now)) else task
  }

  /** The list with the first entry whose id is `task.id` replaced. */
  function ReplaceFirstById(tasks: seq<Task>, task: Task): (r: seq<Task>)
    ensures |r| == |tasks|
    ensures var k := IndexOfId(tasks, task.id);
      (k < |tasks| ==> r[k] == task) &&
      (forall i :: 0 <= i < |tasks| && i != k ==> r[i] == tasks[i])
    ensures !HasId(tasks, task.id) ==> r == tasks
  {
    var k := IndexOfId(tasks, task.id);
    if k < |tasks| then tasks[k := task] else tasks
  }

  /** The list with the first entry whose id is `id` spliced out. */
  function RemoveFirstById(tasks: seq<Task>, id: string): (r: seq<Task>)
    ensures IsSubsequence(r, tasks)
    ensures HasId(tasks, id) ==> |r| == |tasks| - 1
    ensures var k := IndexOfId(tasks, id);
      k < |tasks| ==> r[..k] == tasks[..k] && r[k..] == tasks[k + 1..]
    ensures !HasId(tasks, id) ==> r == tasks
  {
    var k := IndexOfId(tasks, id);
    if k < |tasks| then
      SpliceIsSubsequence(tasks, k);
      tasks[..k] + tasks[k + 1..]
    else
      SubsequenceOfSelf(tasks);
      tasks
  }

  lemma {:induction false} SpliceIsSubsequence(s: seq<Task>, k: nat)
    requires k < |s|
    ensures IsSubsequence(s[..k] + s[k + 1..], s)
    decreases k
  {
    var r := s[..k] + s[k + 1..];
    if k == 0 {
      assert r == s[1..];
      SubsequenceOfSelf(s[1..]);
    } else {
      SpliceIsSubsequence(s[1..], k - 1);
      assert r[0] == s[0];
      assert r[1..] == s[1..][..k - 1] + s[1..][k..];
    }
  }

  /** The removal takes out one copy of the first match and nothing else. */
  lemma RemoveFirstCounts(tasks: seq<Task>, id: string)
    ensures var k := IndexOfId(tasks, id);
      multiset(RemoveFirstById(tasks, id)) ==
        if k < |tasks| then multiset(tasks) - multiset{tasks[k]} else multiset(tasks)
  {
    var k := IndexOfId(tasks, id);
    if k < |tasks| {
      var r := RemoveFirstById(tasks, id);
      assert r == tasks[..k] + r[k..];
      SpliceCounts(tasks, k);
    }
  }

  lemma SpliceCounts(s: seq<Task>, k: nat)
    requires k < |s|
    ensures multiset(s[..k] + s[k + 1..]) == multiset(s) - multiset{s[k]}
  {
    var before, after := s[..k], s[k + 1..];
    assert s == before + ([s[k]] + after);
  }

  /** The `for i, t := range tasks` search-and-assign of `UpdateTask`. */
  method ReplaceFirst(tasks: seq<Task>, task: Task, now: int) returns (r: seq<Task>, written: Task)
    ensures written == UpdatedRecord(tasks, task, now)
    ensures r == ReplaceFirstById(tasks, written)
  {
    r, written := tasks, task;
    var i := 0;
    while i < |tasks|
      invariant 0 <= i <= |tasks|
      invariant r == tasks && written == task
      invariant forall j :: 0 <= j < i ==> tasks[j].id != task.id
    {
      if tasks[i].id == task.id {
        written := task.(updatedAt := Some(now));
        r := tasks[i := written];
        break;
      }
      i := i + 1;
    }
  }

  /** The `for i, task := range tasks` search-and-splice of `DeleteTask`. */
  method RemoveFirst(tasks: seq<Task>, id: string) returns (r: seq<Task>)
    ensures r == RemoveFirstById(tasks, id)
  {
    r := tasks;
    var i := 0;
    while i < |tasks|
      invariant 0 <= i <= |tasks|
      invariant r == tasks
      invariant forall j :: 0 <= j < i ==> tasks[j].id != id
    {
      if tasks[i].id == id {
        r := tasks[..i] + tasks[i + 1..];
        break;
      }
      i := i + 1;
    }
  }

  class TaskStorage {
    var file: FileState

    constructor (initial: FileState)
      ensures file == initial
    {
      file := initial;
    }

    /** `GetTasks`: a missing file reads as the empty list. */
    function GetTasks(): (r: Result<seq<Task>>)
      reads this
      ensures r.Err? <==> file.Unreadable?
      ensures file.Missing? ==> r == Ok([])
      ensures file.Stored? ==> r == Ok(file.tasks)
    {
      match file
      case Missing => Ok([])
      case Unreadable(reason) => Err(reason)
      case Stored(tasks) => Ok(tasks)
    }

    /** `AddTask`: overwrite the id with a fresh one, stamp both times, and
        append. Returns the caller's task as `AddTask` leaves it. */
    method AddTask(task: Task, freshId: string, now: int) returns (out: Task, err: Option<string>)
      modifies this
      ensures old(GetTasks()).Err? ==>
        file == old(file) && out == task && err == Some(old(GetTasks()).reason)
      ensures old(GetTasks()).Ok? ==>
        out == task.(id := freshId, createdAt := Some(now), updatedAt := Some(now)) &&
        file == Stored(old(GetTasks()).value + [out]) && err == None
    {
      var loaded := GetTasks();
      if loaded.Err? {
        return task, Some(loaded.reason);
      }
      out := task.(id := freshId, createdAt := Some(now), updatedAt := Some(now));
      file := Stored(loaded.value + [out]);
      err := None;
    }

    /** `UpdateTask`, called with the body whose id the handler has
        overwritten with the path id. An unknown id rewrites the file
        unchanged and is no error. */
    method UpdateTask(pathId: string, body: Task, now: int) returns (out: Task, err: Option<string>)
      modifies this
      ensures old(GetTasks()).Err? ==>
        file == old(file) && out == body.(id := pathId) && err == Some(old(GetTasks()).reason)
      ensures old(GetTasks()).Ok? ==>
        var tasks := old(GetTasks()).value;
        out == UpdatedRecord(tasks, body.(id := pathId), now) &&
        file == Stored(ReplaceFirstById(tasks, out)) && err == None
    {
      var task := body.(id := pathId);
      var loaded := GetTasks();
      if loaded.Err? {
        return task, Some(loaded.reason);
      }
      var tasks;
      tasks, out := ReplaceFirst(loaded.value, task, now);
      file := Stored(tasks);
      err := None;
    }

    /** `DeleteTask`: an unknown id rewrites the file unchanged and is no error. */
    method DeleteTask(taskId: string) returns (err: Option<string>)
      modifies this
      ensures old(GetTasks()).Err? ==> file == old(file) && err == Some(old(GetTasks()).reason)
      ensures old(GetTasks()).Ok? ==>
        file == Stored(RemoveFirstById(old(GetTasks()).value, taskId)) && err == None
    {
      var loaded := GetTasks();
      if loaded.Err? {
        return Some(loaded.reason);
      }
      var tasks := RemoveFirst(loaded.value, taskId);
      file := Stored(tasks);
      err := None;
    }
  }
}
