/** The task detail dialog: a working copy of the task, edited one field
    at a time, and the edit-mode and submitting flags its buttons toggle. */
module TaskModalModel {
  import opened TaskModel

  /** One change event: the input's `name` and its new value. */
  datatype FieldEdit =
    | EditTitle(title: string)
    | EditDescription(description: string)
    | EditStatus(status: Status)
    | EditPriority(priority: Priority)

  /** `{...prev, [name]: value}` */
  function ApplyEdit(t: Task, e: FieldEdit): Task {
    match e
    case EditTitle(v) => t.(title := v)
    case EditDescription(v) => t.(description := Some(v))
    case EditStatus(v) => t.(status := v)
    case EditPriority(v) => t.(priority := Some(v))
  }

  /** An edit sets the named field and no other: the id and the timestamps
      are never touched, and a second edit of the same field overrides the
      first. */
  lemma ApplyEditSpec(t: Task, e: FieldEdit, e2: FieldEdit)
    ensures var r := ApplyEdit(t, e);
      r.id == t.id && r.createdAt == t.createdAt && r.updatedAt == t.updatedAt &&
      (e.EditTitle? ==> r.title == e.title && SameExceptTitle(r, t)) &&
      (e.EditDescription? ==> r.description == Some(e.description) && r.title == t.title && r.status == t.status && r.priority == t.priority) &&
      (e.EditStatus? ==> r.status == e.status && SameExceptStatus(r, t)) &&
      (e.EditPriority? ==> r.priority == Some(e.priority) && r.title == t.title && r.description == t.description && r.status == t.status)
    ensures SameField(e, e2) ==> ApplyEdit(ApplyEdit(t, e), e2) == ApplyEdit(t, e2)
  {
  }

  predicate SameExceptTitle(a: Task, b: Task) {
    a.id == b.id && a.description == b.description && a.status == b.status &&
    a.priority == b.priority && a.createdAt == b.createdAt && a.updatedAt == b.updatedAt
  }

  /** Two edits name the same input. */
  predicate SameField(e: FieldEdit, e2: FieldEdit) {
    (e.EditTitle? && e2.EditTitle?) || (e.EditDescription? && e2.EditDescription?) ||
    (e.EditStatus? && e2.EditStatus?) || (e.EditPriority? && e2.EditPriority?)
  }

  class TaskModal {
    var editedTask: Task
    var isSubmitting: bool
    var isEditing: bool
    /** Whether the board passed an `onUpdate` callback. */
    const hasOnUpdate: bool

    /** Edit mode is only ever on when there is somewhere to save to. */
    predicate Valid()
      reads this
    {
      isEditing ==> hasOnUpdate
    }

    constructor (task: Task, onUpdate: bool)
      ensures Valid()
      ensures editedTask == task && hasOnUpdate == onUpdate && !isEditing && !isSubmitting
    {
      editedTask := task;
      hasOnUpdate := onUpdate;
      isSubmitting, isEditing := false, false;
    }

    /** `handleChange` */
    method HandleChange(e: FieldEdit)
      requires Valid()
      modifies this`editedTask
      ensures Valid()
      ensures editedTask == ApplyEdit(old(editedTask), e)
    {
      editedTask := ApplyEdit(editedTask, e);
    }

    /** The edit button, which is rendered only when `onUpdate` is given. */
    method StartEditing()
      requires Valid()
      modifies this`isEditing
      ensures Valid()
      ensures isEditing == (old(isEditing) || hasOnUpdate)
    {
      if hasOnUpdate {
        isEditing := true;
      }
    }

    /** The cancel button: leave edit mode, keeping the edited copy. */
    method Cancel()
      requires Valid()
      modifies this`isEditing
      ensures Valid() && !isEditing
    {
      isEditing := false;
    }

    /** `handleSubmit`: without `onUpdate` nothing happens. Otherwise the
        edited copy is handed over; success leaves edit mode, failure is
        swallowed and stays in it; `isSubmitting` ends false. */
    method HandleSubmit(updateSucceeds: bool) returns (sent: Option<Task>)
      requires Valid()
      modifies this`isSubmitting, this`isEditing
      ensures Valid()
      ensures !hasOnUpdate ==> sent == None && unchanged(this)
      ensures hasOnUpdate ==>
        sent == Some(editedTask) && !isSubmitting &&
        isEditing == (old(isEditing) && !updateSucceeds)
    {
      if !hasOnUpdate {
        return None;
      }
      isSubmitting := true;
      sent := Some(editedTask);
      if updateSucceeds {
        isEditing := false;
      }
      isSubmitting := false;
    }
  }
}
