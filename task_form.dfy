/** The new-task form: its field state and the submit handler that
    validates the title, hands a draft to the store and resets only when
    that succeeds. */
module TaskFormModel {
  import opened TaskModel
  import opened Text

  class TaskForm {
    var title: string
    var description: string
    var status: Status
    var priority: Priority
    var isSubmitting: bool
    var isOpen: bool

    /** The fields as the form first shows them. */
    predicate Initial()
      reads this
    {
      title == "" && description == "" && status == Todo && priority == Low
    }

    constructor ()
      ensures Initial() && !isSubmitting && !isOpen
    {
      title, description, status, priority := "", "", Todo, Low;
      isSubmitting, isOpen := false, false;
    }

    /** The add button opens the dialog. */
    method Open()
      modifies this`isOpen
      ensures isOpen
    {
      isOpen := true;
    }

    /** `handleSubmit`. A title that trims to nothing submits nothing and
        changes nothing. Otherwise the draft is the fields as typed (the
        title untrimmed); success resets the fields and closes the dialog,
        failure is swallowed and keeps both; `isSubmitting` ends false. */
    method HandleSubmit(submitSucceeds: bool) returns (submitted: Option<Draft>)
      modifies this
      ensures Trim(old(title)) == [] ==>
        submitted == None && unchanged(this)
      ensures Trim(old(title)) != [] ==>
        submitted == Some(Draft(old(title), Some(old(description)), old(status), Some(old(priority)))) &&
        !isSubmitting
      ensures Trim(old(title)) != [] && submitSucceeds ==> Initial() && !isOpen
      ensures Trim(old(title)) != [] && !submitSucceeds ==>
        title == old(title) && description == old(description) && status == old(status) &&
        priority == old(priority) && isOpen == old(isOpen)
    {
      if Trim(title) == [] {
        return None;
      }
      isSubmitting := true;
      submitted := Some(Draft(title, Some(description), status, Some(priority)));
      if submitSucceeds {
        title, description, status, priority := "", "", Todo, Low;
        isOpen := false;
      }
      isSubmitting := false;
    }
  }
}
