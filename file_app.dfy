/** Start-up of the file variant, `App.Run`: handler registration, cleanup of the
    events file (a failure is only logged), restore of the reminders of the upcoming
    events, and only then the start of the bot. */
module FileApp {
  import opened Common
  import opened Seqs
  import opened Tasks
  import opened Registry
  import opened FileStorage
  import opened FileReminder

  /** The goroutine `ScheduleReminder` starts for a restored event: registered under
      its original id. */
  function ArmedEvent(e: FileEvent): Task {
    Task(e.originalId, e.chatId, e.text, e.dateTime, Pending)
  }

  /** Cancelling against an empty registry invokes nothing. */
  lemma {:induction false} CancelLogEmpty(events: seq<FileEvent>)
    ensures CancelLog(map[], events) == []
    decreases |events|
  {
    if |events| > 0 {
      CancelLogEmpty(events[..|events| - 1]);
    }
  }

  /** Events all after `now` are all upcoming. */
  lemma {:induction false} UpcomingOfUpcoming(events: seq<FileEvent>, now: int)
    requires forall i :: 0 <= i < |events| ==> events[i].dateTime > now
    ensures Upcoming(events, now) == events
    decreases |events|
  {
    if |events| > 0 {
      UpcomingOfUpcoming(events[..|events| - 1], now);
    }
  }

  /** Every upcoming event is after `now`. */
  lemma {:induction false} UpcomingIsAfter(events: seq<FileEvent>, now: int)
    ensures var u := Upcoming(events, now);
            forall i :: 0 <= i < |u| ==> u[i].dateTime > now
    decreases |events|
  {
    if |events| > 0 {
      var init := events[..|events| - 1];
      var last := events[|events| - 1];
      UpcomingIsAfter(init, now);
      assert Upcoming(events, now) == Upcoming(init, now) + (if last.dateTime > now then [last] else []);
    }
  }

  /** An event that agrees, number aside, with one of a sequence of events after `now`
      is after `now`. */
  lemma AfterByUnnumbered(x: FileEvent, u: seq<FileEvent>, now: int)
    requires forall i :: 0 <= i < |u| ==> u[i].dateTime > now
    requires Unnumbered(x) in multiset(MapSeq(Unnumbered, u))
    ensures x.dateTime > now
  {
    var mu := MapSeq(Unnumbered, u);
    assert Unnumbered(x) in mu;
    var j :| 0 <= j < |mu| && mu[j] == Unnumbered(x);
    assert u[j].dateTime == mu[j].dateTime;
  }

  /** A cleaned file holds only events after `now`. */
  lemma CleanedIsUpcoming(events: seq<FileEvent>, now: int)
    ensures var r := Reindexed(Upcoming(events, now));
            forall i :: 0 <= i < |r| ==> r[i].dateTime > now
  {
    var u := Upcoming(events, now);
    var r := Reindexed(u);
    UpcomingIsAfter(events, now);
    ReindexedKeepsEvents(u);
    var mr := MapSeq(Unnumbered, r);
    forall i | 0 <= i < |r| ensures r[i].dateTime > now {
      assert mr[i] == Unnumbered(r[i]);
      assert mr[i] in multiset(mr);
      AfterByUnnumbered(r[i], u, now);
    }
  }

  /** One turn of the restore loop: an event after `now` is scheduled, anything else
      is skipped. */
  method RestoreOne(rm: ReminderManager, e: FileEvent, now: int)
    requires rm.Valid()
    modifies rm.registry, rm.registry.pool
    ensures rm.Valid()
    ensures rm.registry.pool.invoked == old(rm.registry.pool.invoked)
    ensures rm.registry.pool.tasks == old(rm.registry.pool.tasks) + (if e.dateTime > now then [ArmedEvent(e)] else [])
    ensures rm.registry.active == if e.dateTime > now then old(rm.registry.active)[e.originalId := old(|rm.registry.pool.tasks|)]
                                  else old(rm.registry.active)
  {
    if e.dateTime > now {
      var _ := rm.ScheduleReminder(e, now);
    }
  }

  /** The loop of `App.restoreReminders` over the loaded events: exactly the events
      after `now` get a goroutine each, in order, and each of them ends up registered
      under its original id with one of the new handles; earlier keys stay registered,
      and keep their handle unless a restored event took their key. */
  method ArmUpcoming(rm: ReminderManager, loaded: seq<FileEvent>, now: int)
    requires rm.Valid()
    modifies rm.registry, rm.registry.pool
    ensures rm.Valid()
    ensures rm.registry.pool.invoked == old(rm.registry.pool.invoked)
    ensures rm.registry.pool.tasks == old(rm.registry.pool.tasks) + MapSeq(ArmedEvent, Upcoming(loaded, now))
    ensures forall j :: 0 <= j < |loaded| && loaded[j].dateTime > now ==>
              loaded[j].originalId in rm.registry.active
              && rm.registry.active[loaded[j].originalId] >= old(|rm.registry.pool.tasks|)
    ensures forall k :: k in old(rm.registry.active) ==> k in rm.registry.active
    ensures forall k :: k in rm.registry.active ==>
              || rm.registry.active[k] >= old(|rm.registry.pool.tasks|)
              || (k in old(rm.registry.active) && rm.registry.active[k] == old(rm.registry.active)[k])
  {
    ghost var start := |rm.registry.pool.tasks|;
    var i := 0;
    while i < |loaded|
      invariant 0 <= i <= |loaded|
      invariant rm.Valid()
      invariant rm.registry.pool.invoked == old(rm.registry.pool.invoked)
      invariant rm.registry.pool.tasks == old(rm.registry.pool.tasks) + MapSeq(ArmedEvent, Upcoming(loaded[..i], now))
      invariant forall j :: 0 <= j < i && loaded[j].dateTime > now ==>
                  loaded[j].originalId in rm.registry.active && rm.registry.active[loaded[j].originalId] >= start
      invariant forall k :: k in old(rm.registry.active) ==> k in rm.registry.active
      invariant forall k :: k in rm.registry.active ==>
                  || rm.registry.active[k] >= start
                  || (k in old(rm.registry.active) && rm.registry.active[k] == old(rm.registry.active)[k])
    {
      var e := loaded[i];
      assert loaded[..i + 1][..i] == loaded[..i];
      ghost var before := rm.registry.active;
      RestoreOne(rm, e, now);
      forall j | 0 <= j <= i && loaded[j].dateTime > now
        ensures loaded[j].originalId in rm.registry.active && rm.registry.active[loaded[j].originalId] >= start
      {
        if j < i && loaded[j].originalId != e.originalId {
          assert rm.registry.active[loaded[j].originalId] == before[loaded[j].originalId];
        }
      }
      i := i + 1;
    }
    assert loaded[..i] == loaded;
  }

  /** `App.restoreReminders`. A load error arms nothing. Otherwise `loaded` is the file
      contents and its events after `now` are armed as `ArmUpcoming` says. */
  method RestoreReminders(rm: ReminderManager, now: int, fault: Option<string>) returns (loaded: seq<FileEvent>)
    requires rm.Valid()
    modifies rm.registry, rm.registry.pool
    ensures rm.Valid()
    ensures rm.registry.pool.invoked == old(rm.registry.pool.invoked)
    ensures fault.Some? ==> rm.registry.active == old(rm.registry.active) && rm.registry.pool.tasks == old(rm.registry.pool.tasks)
    ensures fault.None? ==> loaded == rm.file.contents
    ensures fault.None? ==> rm.registry.pool.tasks == old(rm.registry.pool.tasks) + MapSeq(ArmedEvent, Upcoming(loaded, now))
    ensures fault.None? ==>
              forall j :: 0 <= j < |loaded| && loaded[j].dateTime > now ==>
                loaded[j].originalId in rm.registry.active
                && rm.registry.active[loaded[j].originalId] >= old(|rm.registry.pool.tasks|)
    ensures forall k :: k in old(rm.registry.active) ==> k in rm.registry.active
    ensures forall k :: k in rm.registry.active ==>
              || rm.registry.active[k] >= old(|rm.registry.pool.tasks|)
              || (k in old(rm.registry.active) && rm.registry.active[k] == old(rm.registry.active)[k])
  {
    loaded := [];
    var events := rm.file.LoadEvents(fault);
    if events.Err? {
      return;
    }
    loaded := events.value;
    ArmUpcoming(rm, loaded, now);
  }

  /** `App.Run` from a fresh process. The handlers are registered first, while the
      registry is empty and the file is as it was; the bot starts last, when the
      registry and the file are as they are at the end. The cleanup and the restore
      read the clock separately, at `cleanupNow` and `restoreNow`. When the bot
      starts, the file holds the events after `cleanupNow` renumbered unless the
      cleanup failed, nothing was cancelled, and, unless the restore load failed,
      every event after `restoreNow` in the file has its goroutine, in file order, and
      is registered under its original id. After a successful cleanup, an event of the
      file is left unarmed only when it falls between the two clock readings. */
  method Run(rm: ReminderManager, bot: Bot, cleanupNow: int, restoreNow: int,
             cleanupLoadFault: Option<string>, saveFault: Option<string>, restoreFault: Option<string>)
    requires rm.Valid()
    requires rm.registry.active == map[] && rm.registry.pool.tasks == [] && rm.registry.pool.invoked == []
    requires !bot.handlersRegistered && !bot.started
    modifies rm.file, rm.registry, rm.registry.pool, bot
    ensures bot.handlersRegistered && bot.started
    ensures bot.atRegistration == Snapshot({}, OriginalIds(old(rm.file.contents)))
    ensures bot.atStart == Snapshot(rm.registry.active.Keys, OriginalIds(rm.file.contents))
    ensures rm.Valid()
    ensures rm.file.contents == if cleanupLoadFault.None? && saveFault.None?
                                then Reindexed(Upcoming(old(rm.file.contents), cleanupNow)) else old(rm.file.contents)
    ensures rm.registry.pool.invoked == []
    ensures restoreFault.Some? ==> rm.registry.active == map[] && rm.registry.pool.tasks == []
    ensures restoreFault.None? ==>
              && rm.registry.pool.tasks == MapSeq(ArmedEvent, Upcoming(rm.file.contents, restoreNow))
              && forall j :: 0 <= j < |rm.file.contents| && rm.file.contents[j].dateTime > restoreNow ==>
                   rm.file.contents[j].originalId in rm.registry.active
    ensures cleanupLoadFault.None? && saveFault.None? ==>
              forall j :: 0 <= j < |rm.file.contents| ==> rm.file.contents[j].dateTime > cleanupNow
    ensures restoreFault.None? && cleanupLoadFault.None? && saveFault.None? && restoreNow <= cleanupNow ==>
              rm.registry.pool.tasks == MapSeq(ArmedEvent, rm.file.contents)
  {
    bot.RegisterHandlers(Snapshot(rm.registry.active.Keys, OriginalIds(rm.file.contents)));
    var _ := CleanupPastEvents(rm.file, rm.registry, cleanupNow, cleanupLoadFault, saveFault);
    CancelLogEmpty(Due(old(rm.file.contents), cleanupNow));
    if cleanupLoadFault.None? && saveFault.None? {
      CleanedIsUpcoming(old(rm.file.contents), cleanupNow);
      if restoreNow <= cleanupNow {
        UpcomingOfUpcoming(rm.file.contents, restoreNow);
      }
    }
    var _ := RestoreReminders(rm, restoreNow, restoreFault);
    bot.Start(Snapshot(rm.registry.active.Keys, OriginalIds(rm.file.contents)));
  }
}
