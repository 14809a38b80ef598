/** The table of active reminders, `activeReminders`, with `RegisterReminder` and
    `CancelReminder`. The two variants of the bot hold the same table: keyed by the
    event id and unlocked in the database variant, keyed by the original id and
    guarded by a mutex in the file variant. */
module Registry {
  import opened Tasks

  class ReminderRegistry {
    /** Key to the cancel function registered under it. */
    var active: map<int, Handle>
    /** The goroutines whose contexts the cancel functions cancel. */
    const pool: TaskPool

    /** Every registered cancel function belongs to a started goroutine that was
        registered under that same key. */
    ghost predicate Consistent()
      reads this, pool
    {
      forall k :: k in active ==> active[k] < |pool.tasks| && pool.tasks[active[k]].key == k
    }

    constructor (pool: TaskPool)
      ensures active == map[] && this.pool == pool
    {
      active := map[];
      this.pool := pool;
    }

    /** Stores `h` under `id`, silently replacing an earlier handle, which is not invoked. */
    method Register(id: int, h: Handle)
      modifies this
      ensures active == old(active)[id := h]
      ensures unchanged(pool)
    {
      active := active[id := h];
    }

    /** A present key: its handle is invoked once and the key removed. An absent key:
        nothing happens, so a second cancel of the same key is a no-op. */
    method Cancel(id: int)
      modifies this, pool
      ensures pool.tasks == old(pool.tasks)
      ensures id in old(active) ==> active == old(active) - {id}
                                    && pool.invoked == old(pool.invoked) + [old(active)[id]]
      ensures id !in old(active) ==> active == old(active) && pool.invoked == old(pool.invoked)
      ensures old(Consistent()) ==> Consistent()
    {
      if id in active {
        pool.Invoke(active[id]);
        active := active - {id};
      }
    }
  }
}
