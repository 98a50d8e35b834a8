/**
 * The status envelope of an asynchronous operation (mini/flux/TypedTask.kt):
 * a status, some metadata and an optional error.
 */
module TypedTasks {
  import Wrappers

  /** Idle is not a terminal status; Success and Error are. */
  datatype TaskStatus = Idle | Running | Success | Error

  /**
   * A thrown error. Kotlin compares throwables by identity, so each one
   * carries the identity of the object that was thrown.
   */
  datatype Throwable = Throwable(identity: nat, message: string)

  datatype TypedTask<T> = TypedTask(status: TaskStatus, metadata: T, error: Wrappers.Option<Throwable>) {

    function IsRunning(): bool
    {
      status == Running
    }

    function IsFailure(): bool
    {
      status == Error
    }

    function IsSuccessful(): bool
    {
      status == Success
    }

    /** A task has finished exactly when it succeeded or failed. */
    function IsTerminal(): (b: bool)
      ensures b <==> IsSuccessful() || IsFailure()
      ensures b ==> !IsRunning()
      ensures status == Idle ==> !b
    {
      status == Success || status == Error
    }
  }

  /**
   * The data class constructor, whose status defaults to Idle and whose
   * error defaults to none.
   */
  function NewTask<T>(metadata: T, status: TaskStatus := Idle, error: Wrappers.Option<Throwable> := Wrappers.None): (t: TypedTask<T>)
    ensures t.metadata == metadata && t.error == error
    ensures t.status == status
  {
    TypedTask(status, metadata, error)
  }

  /** The predicates are mutually exclusive, and an idle task satisfies none of them. */
  lemma StatusPredicatesExclusive<T>(t: TypedTask<T>)
    ensures !(t.IsRunning() && t.IsFailure())
    ensures !(t.IsRunning() && t.IsSuccessful())
    ensures !(t.IsFailure() && t.IsSuccessful())
    ensures t.status == Idle <==> !t.IsRunning() && !t.IsFailure() && !t.IsSuccessful()
  {
  }

  /**
   * `Task` is `TypedTask<Nothing?>`: its metadata is always null. `Wrappers.Option<()>`
   * stands for `Nothing?`, and the nullable factories below only ever put `None` there.
   */
  type Task = TypedTask<Wrappers.Option<()>>

  // Factory functions

  function TaskIdle<T>(data: T): (t: TypedTask<T>)
    ensures !t.IsRunning() && !t.IsTerminal() && t.metadata == data && t.error.None?
  {
    TypedTask(Idle, data, Wrappers.None)
  }

  function TaskSuccess<T>(data: T): (t: TypedTask<T>)
    ensures t.IsSuccessful() && t.IsTerminal() && t.metadata == data && t.error.None?
  {
    TypedTask(Success, data, Wrappers.None)
  }

  function TaskRunning<T>(data: T): (t: TypedTask<T>)
    ensures t.IsRunning() && !t.IsTerminal() && t.metadata == data && t.error.None?
  {
    TypedTask(Running, data, Wrappers.None)
  }

  /** A failed task carries exactly the error it was given (by default none). */
  function TaskFailure<T>(data: T, e: Wrappers.Option<Throwable> := Wrappers.None): (t: TypedTask<T>)
    ensures t.IsFailure() && t.IsTerminal() && t.metadata == data && t.error == e
  {
    TypedTask(Error, data, e)
  }

  // Factory functions for nullable metadata

  function TaskIdleNull<T>(): (t: TypedTask<Wrappers.Option<T>>)
    ensures !t.IsRunning() && !t.IsTerminal() && t.metadata.None? && t.error.None?
  {
    TypedTask(Idle, Wrappers.None, Wrappers.None)
  }

  function TaskSuccessNull<T>(): (t: TypedTask<Wrappers.Option<T>>)
    ensures t.IsSuccessful() && t.IsTerminal() && t.metadata.None? && t.error.None?
  {
    TypedTask(Success, Wrappers.None, Wrappers.None)
  }

  function TaskRunningNull<T>(): (t: TypedTask<Wrappers.Option<T>>)
    ensures t.IsRunning() && !t.IsTerminal() && t.metadata.None? && t.error.None?
  {
    TypedTask(Running, Wrappers.None, Wrappers.None)
  }

  function TaskFailureNull<T>(error: Wrappers.Option<Throwable> := Wrappers.None): (t: TypedTask<Wrappers.Option<T>>)
    ensures t.IsFailure() && t.IsTerminal() && t.metadata.None? && t.error == error
  {
    TypedTask(Error, Wrappers.None, error)
  }
}
