/** The database variant's scheduler: `ScheduleReminder` registers a goroutine under
    the event id, and when its timer wins the goroutine asks the database whether the
    row still exists before it sends anything. */
module DbReminder {
  import opened Common
  import opened Tasks
  import opened Registry
  import opened DbEvents

  class Scheduler {
    /** The package-level `activeReminders` table. */
    const registry: ReminderRegistry
    /** The database the goroutines re-check at fire time. */
    const database: EventTable
    /** The bot the goroutines send through. */
    const bot: Outbox

    ghost predicate Valid()
      reads this, registry, registry.pool
    {
      registry.Consistent()
    }

    constructor (registry: ReminderRegistry, database: EventTable, bot: Outbox)
      requires registry.Consistent()
      ensures Valid()
      ensures this.registry == registry && this.database == database && this.bot == bot
    {
      this.registry := registry;
      this.database := database;
      this.bot := bot;
    }

    /** `ScheduleReminder`. An event not due strictly after `now` gives no handle and
        changes nothing. Otherwise one goroutine is started that captured the chat, the
        text and the fire time, and its fresh handle is registered under the event id,
        replacing (without invoking) any handle registered there before; that handle is
        returned. */
    method ScheduleReminder(chatId: int, event: ModelEvent, now: int) returns (cancel: Option<Handle>)
      requires Valid()
      modifies registry, registry.pool
      ensures Valid()
      ensures registry.pool.invoked == old(registry.pool.invoked)
      ensures event.sendAt <= now ==> cancel == None && registry.active == old(registry.active)
                                      && registry.pool.tasks == old(registry.pool.tasks)
      ensures event.sendAt > now ==>
                && cancel == Some(old(|registry.pool.tasks|))
                && registry.pool.tasks == old(registry.pool.tasks)
                   + [Task(event.id, chatId, event.message, event.sendAt, Pending)]
                && registry.active == old(registry.active)[event.id := cancel.value]
    {
      if event.sendAt - now <= 0 {
        return None;
      }
      var h := registry.pool.Spawn(Task(event.id, chatId, event.message, event.sendAt, Pending));
      registry.Register(event.id, h);
      cancel := Some(h);
    }

    /** The timer of goroutine `h` wins its select at `now`. The goroutine looks its event
        up by id: a lookup error sends nothing; a present row sends exactly one
        notification, to the chat and with the text captured at schedule time; an absent
        row sends nothing. Either way the goroutine ends, its deferred cancel runs, and
        its registry key stays where it is. */
    method TimerFires(h: Handle, now: int, fault: Option<string>)
      requires Valid()
      requires h < |registry.pool.tasks| && registry.pool.tasks[h].state == Pending
      requires registry.pool.tasks[h].fireAt <= now
      modifies registry.pool, bot
      ensures Valid()
      ensures var t := old(registry.pool.tasks[h]);
              var sent := fault.None? && FindEvent(database.rows, t.key).Some?;
              && registry.pool.tasks == old(registry.pool.tasks)[h := t.(state := Fired(sent))]
              && registry.pool.invoked == old(registry.pool.invoked) + [h]
              && bot.sent == old(bot.sent) + (if sent then [Notify(t.chat, ReminderPrefix + t.text)] else [])
      ensures registry.active == old(registry.active)
    {
      var t := registry.pool.tasks[h];
      var found := database.GetEvent(t.key, fault);
      if found.Err? {
        registry.pool.Complete(h, false);
        return;
      }
      if found.value.Some? {
        bot.Send(Notify(t.chat, ReminderPrefix + t.text));
        registry.pool.Complete(h, true);
      } else {
        registry.pool.Complete(h, false);
      }
    }

    /** The `ctx.Done()` branch of goroutine `h` is taken: its context was cancelled,
        and it ends without sending anything; its deferred cancel runs. */
    method CancellationWins(h: Handle)
      requires Valid()
      requires h < |registry.pool.tasks| && registry.pool.tasks[h].state == Pending
      requires registry.pool.ContextDone(h)
      modifies registry.pool
      ensures Valid()
      ensures registry.pool.tasks == old(registry.pool.tasks)[h := old(registry.pool.tasks[h]).(state := Cancelled)]
      ensures registry.pool.invoked == old(registry.pool.invoked) + [h]
      ensures bot.sent == old(bot.sent) && registry.active == old(registry.active)
    {
      registry.pool.ObserveCancel(h);
    }
  }
}
