/** The front end's task store: the `tasks`, `isLoading` and `error` state
    cells and the four operations that change them once the remote call
    has settled. The remote call is not made here: each operation is given
    how it settled. */
module ClientStore {
  import opened TaskModel
  import opened Text

  datatype Error = Error(message: string)

  /** What a rejected call throws: an `Error` object or any other value. */
  datatype Thrown = ThrownError(error: Error) | ThrownOther

  /** How a remote call settled. */
  datatype Outcome<T> = Resolved(value: T) | Rejected(reason: Thrown)

  /** `err instanceof Error ? err : new Error('Unknown error')` */
  function Recorded(reason: Thrown): Error {
    match reason
    case ThrownError(e) => e
    case ThrownOther => Error("Unknown error")
  }

  /** The record `createTask` sends: the draft plus a placeholder id
      `'temp-' + Date.now()` and both timestamps set to the clock. */
  function Placeholder(draft: Draft, nowMs: nat): Task {
    Task("temp-" + DecimalDigits(nowMs), draft.title, draft.description, draft.status,
         draft.priority, Some(nowMs), Some(nowMs))
  }

  /** The placeholder carries the draft's fields, both timestamps equal to
      the clock, and an id that reads back as "temp-" and the clock. */
  lemma PlaceholderSpec(draft: Draft, nowMs: nat)
    ensures var t := Placeholder(draft, nowMs);
      t.title == draft.title && t.description == draft.description &&
      t.status == draft.status && t.priority == draft.priority &&
      t.createdAt == t.updatedAt == Some(nowMs) &&
      |t.id| > 5 && t.id[..5] == "temp-" && AllDigits(t.id[5..]) && DecimalValue(t.id[5..]) == nowMs
  {
    var t := Placeholder(draft, nowMs);
    assert t.id[5..] == DecimalDigits(nowMs);
    DecimalRoundTrip(nowMs);
  }

  /** `prev.map(t => t.id === updated.id ? updated : t)` */
  function ReplaceById(tasks: seq<Task>, updated: Task): (r: seq<Task>)
    ensures |r| == |tasks|
    ensures forall i :: 0 <= i < |r| ==> r[i] == (if tasks[i].id == updated.id then updated else tasks[i])
  {
    if tasks == [] then []
    else [if tasks[0].id == updated.id then updated else tasks[0]] + ReplaceById(tasks[1..], updated)
  }

  /** `prev.filter(t => t.id !== id)` */
  function RemoveById(tasks: seq<Task>, id: string): (r: seq<Task>)
    ensures IsSubsequence(r, tasks)
    ensures forall i :: 0 <= i < |r| ==> r[i].id != id
  {
    if tasks == [] then []
    else if tasks[0].id != id then [tasks[0]] + RemoveById(tasks[1..], id)
    else RemoveById(tasks[1..], id)
  }

  /** An update whose id is not in the list leaves it alone: nothing is resurrected. */
  lemma ReplaceAbsentIsIdentity(tasks: seq<Task>, updated: Task)
    requires !HasId(tasks, updated.id)
    ensures ReplaceById(tasks, updated) == tasks
  {
  }

  /** Replacing by id keeps every id where it was, so unique ids stay unique. */
  lemma ReplaceKeepsIds(tasks: seq<Task>, updated: Task)
    ensures var r := ReplaceById(tasks, updated);
      (forall i :: 0 <= i < |r| ==> r[i].id == tasks[i].id) &&
      (UniqueIds(tasks) ==> UniqueIds(r))
  {
  }

  /** Deleting removes every copy with the id and keeps every other entry. */
  lemma {:induction false} RemoveCounts(tasks: seq<Task>, id: string, t: Task)
    ensures multiset(RemoveById(tasks, id))[t] == if t.id == id then 0 else multiset(tasks)[t]
  {
    if tasks != [] {
      RemoveCounts(tasks[1..], id, t);
      assert tasks == [tasks[0]] + tasks[1..];
    }
  }

  lemma {:induction false} RemoveAbsentIsIdentity(tasks: seq<Task>, id: string)
    requires !HasId(tasks, id)
    ensures RemoveById(tasks, id) == tasks
  {
    if tasks != [] {
      assert !HasId(tasks[1..], id) by {
        forall j | 0 <= j < |tasks| - 1 ensures tasks[1..][j].id != id {
          assert tasks[1..][j] == tasks[j + 1];
        }
      }
      RemoveAbsentIsIdentity(tasks[1..], id);
      assert tasks == [tasks[0]] + tasks[1..];
    }
  }

  class TaskStore {
    var tasks: seq<Task>
    var isLoading: bool
    var error: Option<Error>

    constructor ()
      ensures tasks == [] && !isLoading && error == None
    {
      tasks := [];
      isLoading := false;
      error := None;
    }

    /** `fetchTasks`: replace the list and clear the error, or keep the
        list and record the error. */
    method FetchTasks(outcome: Outcome<seq<Task>>)
      modifies this
      ensures !isLoading
      ensures outcome.Resolved? ==> tasks == outcome.value && error == None
      ensures outcome.Rejected? ==> tasks == old(tasks) && error == Some(Recorded(outcome.reason))
    {
      isLoading := true;
      match outcome {
        case Resolved(fetched) =>
          tasks := fetched;
          error := None;
        case Rejected(reason) =>
          error := Some(Recorded(reason));
      }
      isLoading := false;
    }

    /** `createTask`: send the placeholder record; on success append the
        server's task (never the placeholder); on failure record the error
        and rethrow. A success leaves `error` as it was. */
    method CreateTask(draft: Draft, nowMs: nat, outcome: Outcome<Task>) returns (sent: Task, rethrown: Option<Thrown>)
      modifies this
      ensures sent == Placeholder(draft, nowMs)
      ensures !isLoading
      ensures outcome.Resolved? ==>
        tasks == old(tasks) + [outcome.value] && error == old(error) && rethrown == None
      ensures outcome.Rejected? ==>
        tasks == old(tasks) && error == Some(Recorded(outcome.reason)) && rethrown == Some(outcome.reason)
    {
      isLoading := true;
      sent := Placeholder(draft, nowMs);
      match outcome {
        case Resolved(created) =>
          tasks := tasks + [created];
          rethrown := None;
        case Rejected(reason) =>
          error := Some(Recorded(reason));
          rethrown := Some(reason);
      }
      isLoading := false;
    }

    /** `updateTask`: `task` is sent as it is; on success every entry whose
        id is the returned task's id is replaced by the returned task,
        whatever was sent. */
    method UpdateTask(task: Task, outcome: Outcome<Task>) returns (sent: Task, rethrown: Option<Thrown>)
      modifies this
      ensures sent == task
      ensures !isLoading
      ensures outcome.Resolved? ==>
        tasks == ReplaceById(old(tasks), outcome.value) && error == old(error) && rethrown == None
      ensures outcome.Rejected? ==>
        tasks == old(tasks) && error == Some(Recorded(outcome.reason)) && rethrown == Some(outcome.reason)
    {
      isLoading := true;
      sent := task;
      match outcome {
        case Resolved(updated) =>
          tasks := ReplaceById(tasks, updated);
          rethrown := None;
        case Rejected(reason) =>
          error := Some(Recorded(reason));
          rethrown := Some(reason);
      }
      isLoading := false;
    }

    /** `deleteTask`: on success drop every entry with the id. */
    method DeleteTask(taskId: string, outcome: Outcome<()>) returns (rethrown: Option<Thrown>)
      modifies this
      ensures !isLoading
      ensures outcome.Resolved? ==>
        tasks == RemoveById(old(tasks), taskId) && error == old(error) && rethrown == None
      ensures outcome.Rejected? ==>
        tasks == old(tasks) && error == Some(Recorded(outcome.reason)) && rethrown == Some(outcome.reason)
    {
      isLoading := true;
      match outcome {
        case Resolved(_) =>
          tasks := RemoveById(tasks, taskId);
          rethrown := None;
        case Rejected(reason) =>
          error := Some(Recorded(reason));
          rethrown := Some(reason);
      }
      isLoading := false;
    }
  }
}
