/** The `todos` slice of the client store: it remembers which task the user asked to delete
    until the deletion is confirmed or cancelled. */
module TodoSlice {
  import opened Basics

  /** The slice's actions; the payload of setTaskToDelete is the task's form data. */
  datatype Action<T> = SetTaskToDelete(payload: T) | ConfirmDeleteTask | CancelDeleteTask

  /** The reducer: the new `taskToDelete` after an action (`None` is `null`). */
  function Reduce<T>(taskToDelete: Option<T>, action: Action<T>): (r: Option<T>)
    ensures action.SetTaskToDelete? ==> r == Some(action.payload)
    ensures !action.SetTaskToDelete? ==> r.None?
  {
    match action
    case SetTaskToDelete(p) => Some(p)
    case ConfirmDeleteTask => None
    case CancelDeleteTask => None
  }

  /** Confirming and cancelling have the same effect, and each is idempotent. */
  lemma ConfirmIsCancel<T>(s: Option<T>)
    ensures Reduce(s, ConfirmDeleteTask) == Reduce(s, CancelDeleteTask)
    ensures Reduce(Reduce(s, ConfirmDeleteTask), ConfirmDeleteTask) == Reduce(s, ConfirmDeleteTask)
    ensures Reduce(Reduce(s, CancelDeleteTask), CancelDeleteTask) == Reduce(s, CancelDeleteTask)
  {
  }

  /** The state after any action depends only on the action, never on the state before. */
  lemma ReduceForgetsPrevious<T>(s: Option<T>, s': Option<T>, action: Action<T>)
    ensures Reduce(s, action) == Reduce(s', action)
  {
  }

  /** Whatever happened before, the last setTaskToDelete payload is what a later confirmation
      clears. */
  lemma SetThenConfirm<T>(s: Option<T>, task: T)
    ensures Reduce(s, SetTaskToDelete(task)) == Some(task)
    ensures Reduce(Reduce(s, SetTaskToDelete(task)), ConfirmDeleteTask) == None
  {
  }

  /** The slice as the store holds it: one field the reducers assign in place. */
  class TodoState<T> {
    var taskToDelete: Option<T>

    /** The initial state: no task awaits deletion. */
    constructor()
      ensures taskToDelete == None
    {
      taskToDelete := None;
    }

    method SetTask(task: T)
      modifies this
      ensures taskToDelete == Reduce(old(taskToDelete), SetTaskToDelete(task))
      ensures taskToDelete == Some(task)
    {
      taskToDelete := Some(task);
    }

    method ConfirmDelete()
      modifies this
      ensures taskToDelete == Reduce(old(taskToDelete), ConfirmDeleteTask)
      ensures taskToDelete == None
    {
      taskToDelete := None;
    }

    method CancelDelete()
      modifies this
      ensures taskToDelete == Reduce(old(taskToDelete), CancelDeleteTask)
      ensures taskToDelete == None
    {
      taskToDelete := None;
    }
  }
}
