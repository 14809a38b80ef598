/** Start-up of the database variant: past events are cleaned up, the reminders of the
    stored future events are armed again, and only then are the chat handlers
    registered and the bot started. */
module DbMain {
  import opened Common
  import opened Seqs
  import opened Tasks
  import opened Registry
  import opened DbEvents
  import opened DbReminder

  /** The rows due strictly after `now`, in their order: the ones the restore loop
      schedules. */
  function DueAfter(rows: seq<DbRow>, now: int): seq<DbRow>
    decreases |rows|
  {
    if |rows| == 0 then []
    else
      var last := rows[|rows| - 1];
      DueAfter(rows[..|rows| - 1], now) + (if last.sendAt > now then [last] else [])
  }

  /** The rows due after `now` are exactly the rows after `now`, kept in order. */
  lemma {:induction false} DueAfterIsFilter(rows: seq<DbRow>, now: int)
    ensures DueAfter(rows, now) == Filter((r: DbRow) => r.sendAt > now, rows)
    decreases |rows|
  {
    if |rows| > 0 {
      var init := rows[..|rows| - 1];
      assert rows == init + [rows[|rows| - 1]];
      DueAfterIsFilter(init, now);
      FilterSnoc((r: DbRow) => r.sendAt > now, init, rows[|rows| - 1]);
    }
  }

  /** The goroutine `ScheduleReminder` starts for a restored row: registered under the
      row's id, sending to the row's user. */
  function Armed(r: DbRow): Task {
    Task(r.eventId, r.userTgId, r.message, r.sendAt, Pending)
  }

  /** `restoreReminders`. A failed query arms nothing. Otherwise `listed` is the query
      result, every row ordered by fire time; exactly the rows due after `now` get a
      goroutine each, in that order; each of them ends up registered under its id with
      one of the new handles; earlier keys stay registered, and keep their handle
      unless a restored row took their key. */
  method RestoreReminders(s: Scheduler, now: int, fault: Option<string>) returns (listed: seq<DbRow>)
    requires s.Valid()
    modifies s.registry, s.registry.pool
    ensures s.Valid()
    ensures s.registry.pool.invoked == old(s.registry.pool.invoked)
    ensures fault.Some? ==> s.registry.active == old(s.registry.active) && s.registry.pool.tasks == old(s.registry.pool.tasks)
    ensures fault.None? ==> SortedBy(listed, SendAtOf) && multiset(listed) == multiset(s.database.rows)
    ensures fault.None? ==> s.registry.pool.tasks == old(s.registry.pool.tasks) + MapSeq(Armed, DueAfter(listed, now))
    ensures fault.None? ==>
              forall j :: 0 <= j < |listed| && listed[j].sendAt > now ==>
                listed[j].eventId in s.registry.active
                && s.registry.active[listed[j].eventId] >= old(|s.registry.pool.tasks|)
    ensures forall k :: k in old(s.registry.active) ==> k in s.registry.active
    ensures forall k :: k in s.registry.active ==>
              || s.registry.active[k] >= old(|s.registry.pool.tasks|)
              || (k in old(s.registry.active) && s.registry.active[k] == old(s.registry.active)[k])
  {
    listed := [];
    var events := s.database.ListEvents(fault);
    if events.Err? {
      return;
    }
    listed := events.value;
    ghost var start := |s.registry.pool.tasks|;
    var i := 0;
    while i < |listed|
      invariant 0 <= i <= |listed|
      invariant s.Valid()
      invariant s.registry.pool.invoked == old(s.registry.pool.invoked)
      invariant s.registry.pool.tasks == old(s.registry.pool.tasks) + MapSeq(Armed, DueAfter(listed[..i], now))
      invariant forall j :: 0 <= j < i && listed[j].sendAt > now ==>
                  listed[j].eventId in s.registry.active && s.registry.active[listed[j].eventId] >= start
      invariant forall k :: k in old(s.registry.active) ==> k in s.registry.active
      invariant forall k :: k in s.registry.active ==>
                  || s.registry.active[k] >= start
                  || (k in old(s.registry.active) && s.registry.active[k] == old(s.registry.active)[k])
    {
      var e := listed[i];
      assert listed[..i + 1][..i] == listed[..i];
      ghost var before := s.registry.active;
      RestoreOne(s, e, now);
      forall j | 0 <= j <= i && listed[j].sendAt > now
        ensures listed[j].eventId in s.registry.active && s.registry.active[listed[j].eventId] >= start
      {
        if j < i && listed[j].eventId != e.eventId {
          assert s.registry.active[listed[j].eventId] == before[listed[j].eventId];
        }
      }
      i := i + 1;
    }
    assert listed[..i] == listed;
  }

  /** One turn of the restore loop: a row due after `now` is scheduled for its user,
      anything else is skipped. */
  method RestoreOne(s: Scheduler, e: DbRow, now: int)
    requires s.Valid()
    modifies s.registry, s.registry.pool
    ensures s.Valid()
    ensures s.registry.pool.invoked == old(s.registry.pool.invoked)
    ensures s.registry.pool.tasks == old(s.registry.pool.tasks) + (if e.sendAt > now then [Armed(e)] else [])
    ensures s.registry.active == if e.sendAt > now then old(s.registry.active)[e.eventId := old(|s.registry.pool.tasks|)]
                                 else old(s.registry.active)
  {
    if e.sendAt > now {
      var _ := s.ScheduleReminder(e.userTgId, e.ToModel(), now);
    }
  }

  /** Every row due after `now` is after `now`. */
  lemma {:induction false} DueAfterIsAfter(rows: seq<DbRow>, now: int)
    ensures var due := DueAfter(rows, now);
            forall i :: 0 <= i < |due| ==> due[i].sendAt > now
    decreases |rows|
  {
    if |rows| > 0 {
      var init := rows[..|rows| - 1];
      var last := rows[|rows| - 1];
      DueAfterIsAfter(init, now);
      var due := DueAfter(rows, now);
      assert due == DueAfter(init, now) + (if last.sendAt > now then [last] else []);
    }
  }

  /** Every goroutine armed for the rows due after `now` is pending and fires after `now`. */
  lemma ArmedAfterNow(rows: seq<DbRow>, now: int)
    ensures var armed := MapSeq(Armed, DueAfter(rows, now));
            forall h :: 0 <= h < |armed| ==> armed[h].state == Pending && armed[h].fireAt > now
  {
    DueAfterIsAfter(rows, now);
  }

  /** Rows registered from a permutation of the table are the rows of the table. */
  lemma ListedRowsRegistered(listed: seq<DbRow>, rows: seq<DbRow>, now: int, active: map<int, Handle>)
    requires multiset(listed) == multiset(rows)
    requires forall j :: 0 <= j < |listed| && listed[j].sendAt > now ==> listed[j].eventId in active
    ensures forall j :: 0 <= j < |rows| && rows[j].sendAt > now ==> rows[j].eventId in active
  {
    forall j | 0 <= j < |rows| && rows[j].sendAt > now
      ensures rows[j].eventId in active
    {
      assert rows[j] in multiset(listed);
      var m :| 0 <= m < |listed| && listed[m] == rows[j];
    }
  }

  /** The ids of the stored rows. */
  function RowIds(rows: seq<DbRow>): set<int> {
    set r | r in rows :: r.eventId
  }

  /** `main` after the bootstrap: cleanup (a failure is only logged), restore, handler
      registration, start. The cleanup and the restore read the clock separately, at
      `cleanupNow` and `restoreNow`. The bot is registered and started only after the
      restore: both steps see the registry and the table as they are at the end. The
      past rows are gone unless the cleanup failed, and, unless the restore query
      failed, every stored row due after `restoreNow` has its reminder armed and
      registered, and no other goroutine was started. */
  method Startup(s: Scheduler, bot: Bot, cleanupNow: int, restoreNow: int,
                 cleanupFault: Option<string>, listFault: Option<string>)
    returns (listed: seq<DbRow>)
    requires s.Valid() && s.database.Valid()
    requires s.registry.active == map[] && s.registry.pool.tasks == [] && s.registry.pool.invoked == []
    requires !bot.handlersRegistered && !bot.started
    modifies s.database, s.registry, s.registry.pool, bot
    ensures bot.handlersRegistered && bot.started
    ensures bot.atRegistration == bot.atStart == Snapshot(s.registry.active.Keys, RowIds(s.database.rows))
    ensures s.Valid() && s.database.Valid()
    ensures s.database.rows == if cleanupFault.None? then NotBefore(old(s.database.rows), cleanupNow) else old(s.database.rows)
    ensures s.registry.pool.invoked == []
    ensures listFault.Some? ==> s.registry.active == map[] && s.registry.pool.tasks == []
    ensures listFault.None? ==>
              && multiset(listed) == multiset(s.database.rows)
              && s.registry.pool.tasks == MapSeq(Armed, DueAfter(listed, restoreNow))
    ensures listFault.None? ==>
              forall j :: 0 <= j < |s.database.rows| && s.database.rows[j].sendAt > restoreNow ==>
                s.database.rows[j].eventId in s.registry.active
    ensures forall h :: 0 <= h < |s.registry.pool.tasks| ==>
              s.registry.pool.tasks[h].state == Pending && s.registry.pool.tasks[h].fireAt > restoreNow
  {
    var _ := s.database.CleanupPastEvents(cleanupNow, cleanupFault);
    listed := RestoreReminders(s, restoreNow, listFault);
    if listFault.None? {
      ArmedAfterNow(listed, restoreNow);
      ListedRowsRegistered(listed, s.database.rows, restoreNow, s.registry.active);
    }
    bot.RegisterHandlers(Snapshot(s.registry.active.Keys, RowIds(s.database.rows)));
    bot.Start(Snapshot(s.registry.active.Keys, RowIds(s.database.rows)));
  }
}
