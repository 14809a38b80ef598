/** The file variant's `ReminderManager`: `ScheduleReminder` registers a goroutine under
    the event's original id, and when its timer wins the goroutine reads the events
    file and sends only if an event with that original id is still there. */
module FileReminder {
  import opened Common
  import opened Tasks
  import opened Registry
  import opened FileStorage
  import opened FileBot

  /** Some event in the file carries that original id. */
  ghost predicate HasOriginalId(events: seq<FileEvent>, originalId: int) {
    exists k :: 0 <= k < |events| && events[k].originalId == originalId
  }

  /** The scan of the fire path: goes through the events in order and stops at the
      first one with that original id. The answer is whether there is one. */
  method ContainsOriginalId(events: seq<FileEvent>, originalId: int) returns (found: bool)
    ensures found <==> HasOriginalId(events, originalId)
  {
    found := false;
    var i := 0;
    while i < |events|
      invariant 0 <= i <= |events|
      invariant !found
      invariant forall k :: 0 <= k < i ==> events[k].originalId != originalId
    {
      if events[i].originalId == originalId {
        found := true;
        break;
      }
      i := i + 1;
    }
  }

  class ReminderManager {
    /** The storage package's `activeReminders`. */
    const registry: ReminderRegistry
    /** The events file the goroutines read at fire time. */
    const file: EventsFile
    const bm: BotManager

    ghost predicate Valid()
      reads this, registry, registry.pool
    {
      registry.Consistent()
    }

    constructor (registry: ReminderRegistry, file: EventsFile, bm: BotManager)
      requires registry.Consistent()
      ensures Valid()
      ensures this.registry == registry && this.file == file && this.bm == bm
    {
      this.registry := registry;
      this.file := file;
      this.bm := bm;
    }

    /** `ScheduleReminder`. An event not due strictly after `now` gives no handle and
        changes nothing. Otherwise one goroutine is started that captured the event's
        chat, text and time, and its fresh handle is registered under the event's
        original id (not its display number), replacing without invoking any handle
        there before; that handle is returned. */
    method ScheduleReminder(e: FileEvent, now: int) returns (cancel: Option<Handle>)
      requires Valid()
      modifies registry, registry.pool
      ensures Valid()
      ensures registry.pool.invoked == old(registry.pool.invoked)
      ensures e.dateTime <= now ==> cancel == None && registry.active == old(registry.active)
                                    && registry.pool.tasks == old(registry.pool.tasks)
      ensures e.dateTime > now ==>
                && cancel == Some(old(|registry.pool.tasks|))
                && registry.pool.tasks == old(registry.pool.tasks)
                   + [Task(e.originalId, e.chatId, e.text, e.dateTime, Pending)]
                && registry.active == old(registry.active)[e.originalId := cancel.value]
    {
      if e.dateTime - now <= 0 {
        return None;
      }
      var h := registry.pool.Spawn(Task(e.originalId, e.chatId, e.text, e.dateTime, Pending));
      registry.Register(e.originalId, h);
      cancel := Some(h);
    }

    /** The timer of goroutine `h` wins its select at `now`. A load error sends nothing.
        Otherwise one notification goes to the captured chat with the captured text
        exactly when the file still holds an event with the goroutine's original id.
        The goroutine ends, its deferred cancel runs, and its registry key stays. */
    method TimerFires(h: Handle, now: int, loadFault: Option<string>)
      requires Valid()
      requires h < |registry.pool.tasks| && registry.pool.tasks[h].state == Pending
      requires registry.pool.tasks[h].fireAt <= now
      modifies registry.pool, bm.bot
      ensures Valid()
      ensures var t := old(registry.pool.tasks[h]);
              var sent := loadFault.None? && HasOriginalId(file.contents, t.key);
              && registry.pool.tasks == old(registry.pool.tasks)[h := t.(state := Fired(sent))]
              && registry.pool.invoked == old(registry.pool.invoked) + [h]
              && bm.bot.sent == old(bm.bot.sent) + (if sent then [Notify(t.chat, ReminderPrefix + t.text)] else [])
      ensures registry.active == old(registry.active) && file.contents == old(file.contents)
    {
      var t := registry.pool.tasks[h];
      var events := file.LoadEvents(loadFault);
      if events.Err? {
        registry.pool.Complete(h, false);
        return;
      }
      var present := ContainsOriginalId(events.value, t.key);
      if present {
        bm.SendReminder(t.chat, t.text);
        registry.pool.Complete(h, true);
      } else {
        registry.pool.Complete(h, false);
      }
    }

    /** The `ctx.Done()` branch of goroutine `h` is taken: its context was cancelled,
        and it ends without sending anything; its deferred cancel runs. */
    method CancellationWins(h: Handle)
      requires Valid()
      requires h < |registry.pool.tasks| && registry.pool.tasks[h].state == Pending
      requires registry.pool.ContextDone(h)
      modifies registry.pool
      ensures Valid()
      ensures registry.pool.tasks == old(registry.pool.tasks)[h := old(registry.pool.tasks[h]).(state := Cancelled)]
      ensures registry.pool.invoked == old(registry.pool.invoked) + [h]
      ensures bm.bot.sent == old(bm.bot.sent) && registry.active == old(registry.active)
    {
      registry.pool.ObserveCancel(h);
    }
  }
}
