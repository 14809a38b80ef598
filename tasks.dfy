/** The reminder goroutines and their cancellable contexts, as a state machine that
    the environment drives: the `select` between the timer and `ctx.Done()` becomes
    two steps, and whichever one the environment takes first decides the task. */
module Tasks {

  /** A cancel function, named by the index of the goroutine whose context it cancels. */
  type Handle = nat

  datatype TaskState = Pending | Cancelled | Fired(sent: bool)

  /** What one reminder goroutine captured when it started: the registry key it was
      registered under, the chat and text of its notification, and its fire time. */
  datatype Task = Task(key: int, chat: int, text: string, fireAt: int, state: TaskState)

  class TaskPool {
    /** Every goroutine started so far; handle `h` belongs to `tasks[h]`. */
    var tasks: seq<Task>
    /** Every call of a cancel function so far, in order. */
    ghost var invoked: seq<Handle>

    /** Context `h` is done once its cancel function has been called. */
    ghost predicate ContextDone(h: Handle)
      reads this
    {
      h in invoked
    }

    constructor ()
      ensures tasks == [] && invoked == []
    {
      tasks := [];
      invoked := [];
    }

    /** `context.WithCancel` plus `go func() { ... }()`: a fresh context and its goroutine. */
    method Spawn(t: Task) returns (h: Handle)
      requires t.state == Pending
      modifies this
      ensures h == old(|tasks|)
      ensures tasks == old(tasks) + [t] && invoked == old(invoked)
    {
      h := |tasks|;
      tasks := tasks + [t];
    }

    /** A call of cancel function `h`. */
    method Invoke(h: Handle)
      modifies this
      ensures tasks == old(tasks) && invoked == old(invoked) + [h]
    {
      invoked := invoked + [h];
    }

    /** The `ctx.Done()` branch of the select is taken: the goroutine ends without
        sending, and its deferred `cancel()` runs. */
    method ObserveCancel(h: Handle)
      requires h < |tasks| && tasks[h].state == Pending && ContextDone(h)
      modifies this
      ensures tasks == old(tasks)[h := old(tasks)[h].(state := Cancelled)]
      ensures invoked == old(invoked) + [h]
    {
      tasks := tasks[h := tasks[h].(state := Cancelled)];
      invoked := invoked + [h];
    }

    /** The timer branch of the select has run to its end, having sent a notification
        or not; the deferred `cancel()` runs. */
    method Complete(h: Handle, sent: bool)
      requires h < |tasks| && tasks[h].state == Pending
      modifies this
      ensures tasks == old(tasks)[h := old(tasks)[h].(state := Fired(sent))]
      ensures invoked == old(invoked) + [h]
    {
      tasks := tasks[h := tasks[h].(state := Fired(sent))];
      invoked := invoked + [h];
    }
  }
}
