/** The file variant's storage: the events file, whose contents are a sequence of
    events, the renumbering `ReindexEvents` that orders events by time and numbers them
    1..N, and `CleanupPastEvents`, which drops the events that are due, cancels their
    reminders and saves the renumbered rest. */
module FileStorage {
  import opened Common
  import opened Seqs
  import opened Tasks
  import opened Registry

  /** An event as the file variant stores it: `id` is the position shown to the user,
      renumbered by every cleanup, while `originalId` is the database id that the
      reminder registry is keyed by. */
  datatype FileEvent = FileEvent(id: int, originalId: int, chatId: int, text: string, dateTime: int)

  function DateTimeOf(e: FileEvent): int { e.dateTime }

  /** An event with its display number blanked out: what renumbering must not change. */
  function Unnumbered(e: FileEvent): FileEvent { e.(id := 0) }

  /** The file `events.json`. A missing file reads as no events, so it is the empty
      sequence here. */
  class EventsFile {
    var contents: seq<FileEvent>

    constructor (contents: seq<FileEvent>)
      ensures this.contents == contents
    {
      this.contents := contents;
    }

    /** `LoadEvents`: the stored events, or the read or decode error. */
    method LoadEvents(fault: Option<string>) returns (r: Result<seq<FileEvent>>)
      ensures fault.Some? ==> r == Err(fault.value)
      ensures fault.None? ==> r == Ok(contents)
    {
      if fault.Some? {
        return Err(fault.value);
      }
      r := Ok(contents);
    }

    /** `SaveEvents`: replaces the contents, or fails and leaves them. */
    method SaveEvents(events: seq<FileEvent>, fault: Option<string>) returns (err: Option<string>)
      modifies this
      ensures err == fault
      ensures contents == if fault.None? then events else old(contents)
    {
      err := fault;
      if fault.None? {
        contents := events;
      }
    }
  }

  /** Each event numbered by its position, counting from 1. */
  function Renumbered(s: seq<FileEvent>): (r: seq<FileEvent>)
    ensures |r| == |s|
    ensures forall i :: 0 <= i < |s| ==> r[i] == s[i].(id := i + 1)
  {
    seq(|s|, i requires 0 <= i < |s| => s[i].(id := i + 1))
  }

  /** What `ReindexEvents` makes of its input: the empty sequence unchanged, and
      otherwise the events ordered by time and numbered 1..N in that order. */
  function Reindexed(s: seq<FileEvent>): (r: seq<FileEvent>)
    ensures |s| == 0 ==> r == s
    ensures |r| == |s|
    ensures SortedBy(r, DateTimeOf)
    ensures forall i :: 0 <= i < |r| ==> r[i].id == i + 1
  {
    if |s| == 0 then s
    else
      var sorted := SortBy(s, DateTimeOf);
      assert forall i :: 0 <= i < |sorted| ==> Renumbered(sorted)[i].dateTime == sorted[i].dateTime;
      Renumbered(sorted)
  }

  /** Renumbering changes nothing but the numbers: with the numbers blanked out, the
      output holds the same events as the input, each as often. */
  lemma ReindexedKeepsEvents(s: seq<FileEvent>)
    ensures multiset(MapSeq(Unnumbered, Reindexed(s))) == multiset(MapSeq(Unnumbered, s))
  {
    if |s| > 0 {
      var sorted := SortBy(s, DateTimeOf);
      assert MapSeq(Unnumbered, Renumbered(sorted)) == MapSeq(Unnumbered, sorted);
      SortByMapPermutation(Unnumbered, s, DateTimeOf, DateTimeOf);
    }
  }

  /** `ReindexEvents`: sorts the slice in place by time, then numbers it 1..N. */
  method ReindexEvents(events: array<FileEvent>)
    modifies events
    ensures events[..] == Reindexed(old(events[..]))
  {
    if events.Length == 0 {
      return;
    }
    var sorted := SortBy(events[..], DateTimeOf);
    assert Reindexed(events[..]) == Renumbered(sorted);
    forall i | 0 <= i < events.Length {
      events[i] := sorted[i];
    }
    for i := 0 to events.Length
      invariant forall k :: 0 <= k < i ==> events[k] == sorted[k].(id := k + 1)
      invariant forall k :: i <= k < events.Length ==> events[k] == sorted[k]
    {
      events[i] := events[i].(id := i + 1);
    }
    assert events[..] == Renumbered(sorted) by {
      assert forall k :: 0 <= k < events.Length ==> events[..][k] == events[k];
    }
  }

  /** The events still to come, in file order: what the cleanup loop appends to
      `newEvents`. */
  function Upcoming(events: seq<FileEvent>, now: int): seq<FileEvent>
    decreases |events|
  {
    if |events| == 0 then []
    else
      var last := events[|events| - 1];
      Upcoming(events[..|events| - 1], now) + (if last.dateTime > now then [last] else [])
  }

  /** The events whose time has come, in file order: the ones the cleanup loop cancels. */
  function Due(events: seq<FileEvent>, now: int): seq<FileEvent>
    decreases |events|
  {
    if |events| == 0 then []
    else
      var last := events[|events| - 1];
      Due(events[..|events| - 1], now) + (if last.dateTime > now then [] else [last])
  }

  /** The upcoming events are exactly the events after `now`, kept in file order. */
  lemma {:induction false} UpcomingIsFilter(events: seq<FileEvent>, now: int)
    ensures Upcoming(events, now) == Filter((e: FileEvent) => e.dateTime > now, events)
    decreases |events|
  {
    if |events| > 0 {
      var init := events[..|events| - 1];
      assert events == init + [events[|events| - 1]];
      UpcomingIsFilter(init, now);
      FilterSnoc((e: FileEvent) => e.dateTime > now, init, events[|events| - 1]);
    }
  }

  /** The due events are exactly the events not after `now`, kept in file order. */
  lemma {:induction false} DueIsFilter(events: seq<FileEvent>, now: int)
    ensures Due(events, now) == Filter((e: FileEvent) => e.dateTime <= now, events)
    decreases |events|
  {
    if |events| > 0 {
      var init := events[..|events| - 1];
      assert events == init + [events[|events| - 1]];
      DueIsFilter(init, now);
      FilterSnoc((e: FileEvent) => e.dateTime <= now, init, events[|events| - 1]);
    }
  }

  function OriginalIds(events: seq<FileEvent>): set<int> {
    set e | e in events :: e.originalId
  }

  /** The handles invoked by cancelling, in order, the reminders registered under the
      original ids of `events`, starting from the registry `active`: each event invokes
      the handle still registered under its id, if any; an id cancelled before is no
      longer registered. */
  function CancelLog(active: map<int, Handle>, events: seq<FileEvent>): seq<Handle>
    decreases |events|
  {
    if |events| == 0 then []
    else
      var last := events[|events| - 1];
      var remaining := active - OriginalIds(events[..|events| - 1]);
      CancelLog(active, events[..|events| - 1])
      + (if last.originalId in remaining then [remaining[last.originalId]] else [])
  }

  /** Cancelling one more event appends to the log the handle still registered under
      its original id, if any. */
  lemma CancelLogSnoc(active: map<int, Handle>, due: seq<FileEvent>, e: FileEvent)
    ensures OriginalIds(due + [e]) == OriginalIds(due) + {e.originalId}
    ensures var remaining := active - OriginalIds(due);
            CancelLog(active, due + [e])
            == CancelLog(active, due) + (if e.originalId in remaining then [remaining[e.originalId]] else [])
  {
    assert (due + [e])[..|due|] == due;
    assert forall x :: x in due + [e] <==> x in due || x == e;
  }

  lemma RemoveOneMore(m: map<int, Handle>, ids: set<int>, k: int)
    ensures (m - ids) - {k} == m - (ids + {k})
  {
  }

  /** One due event in the cleanup loop: `CancelReminder` of its original id extends
      the cancel log by one event. */
  method CancelDueEvent(registry: ReminderRegistry, e: FileEvent, ghost active0: map<int, Handle>,
                        ghost invoked0: seq<Handle>, ghost due: seq<FileEvent>)
    requires registry.active == active0 - OriginalIds(due)
    requires registry.pool.invoked == invoked0 + CancelLog(active0, due)
    modifies registry, registry.pool
    ensures registry.pool.tasks == old(registry.pool.tasks)
    ensures old(registry.Consistent()) ==> registry.Consistent()
    ensures registry.active == active0 - OriginalIds(due + [e])
    ensures registry.pool.invoked == invoked0 + CancelLog(active0, due + [e])
  {
    ghost var remaining, before := registry.active, registry.pool.invoked;
    CancelLogSnoc(active0, due, e);
    registry.Cancel(e.originalId);
    RemoveOneMore(active0, OriginalIds(due), e.originalId);
    ghost var step := if e.originalId in remaining then [remaining[e.originalId]] else [];
    assert registry.pool.invoked == before + step;
    assert registry.pool.invoked == invoked0 + (CancelLog(active0, due) + step);
  }

  /** The loop of `CleanupPastEvents`: keeps the upcoming events in order and cancels
      the reminder of each due one as it passes. */
  method CancelDue(events: seq<FileEvent>, registry: ReminderRegistry, now: int)
    returns (upcoming: seq<FileEvent>)
    modifies registry, registry.pool
    ensures upcoming == Upcoming(events, now)
    ensures registry.pool.tasks == old(registry.pool.tasks)
    ensures old(registry.Consistent()) ==> registry.Consistent()
    ensures registry.active == old(registry.active) - OriginalIds(Due(events, now))
    ensures registry.pool.invoked == old(registry.pool.invoked) + CancelLog(old(registry.active), Due(events, now))
  {
    upcoming := [];
    ghost var active0, invoked0 := registry.active, registry.pool.invoked;
    for i := 0 to |events|
      invariant upcoming == Upcoming(events[..i], now)
      invariant registry.pool.tasks == old(registry.pool.tasks)
      invariant old(registry.Consistent()) ==> registry.Consistent()
      invariant registry.active == active0 - OriginalIds(Due(events[..i], now))
      invariant registry.pool.invoked == invoked0 + CancelLog(active0, Due(events[..i], now))
    {
      var e := events[i];
      assert events[..i + 1][..i] == events[..i];
      if e.dateTime > now {
        assert Due(events[..i + 1], now) == Due(events[..i], now);
        upcoming := upcoming + [e];
      } else {
        ghost var due := Due(events[..i], now);
        assert Due(events[..i + 1], now) == due + [e];
        CancelDueEvent(registry, e, active0, invoked0, due);
      }
    }
    assert events[..|events|] == events;
  }

  /** `CleanupPastEvents`. A load error is returned before anything else happens.
      Otherwise every due event has its reminder cancelled, in file order, so the
      registry loses exactly their original ids; then the upcoming events, renumbered,
      are saved, and a save error is returned. */
  method CleanupPastEvents(file: EventsFile, registry: ReminderRegistry, now: int,
                           loadFault: Option<string>, saveFault: Option<string>)
    returns (err: Option<string>)
    modifies file, registry, registry.pool
    ensures registry.pool.tasks == old(registry.pool.tasks)
    ensures old(registry.Consistent()) ==> registry.Consistent()
    ensures loadFault.Some? ==>
              && err == loadFault && file.contents == old(file.contents)
              && registry.active == old(registry.active) && registry.pool.invoked == old(registry.pool.invoked)
    ensures loadFault.None? ==>
              var events := old(file.contents);
              && err == saveFault
              && registry.active == old(registry.active) - OriginalIds(Due(events, now))
              && registry.pool.invoked == old(registry.pool.invoked) + CancelLog(old(registry.active), Due(events, now))
              && file.contents == if saveFault.None? then Reindexed(Upcoming(events, now)) else events
  {
    var loaded := file.LoadEvents(loadFault);
    if loaded.Err? {
      return loadFault;
    }
    var newEvents := CancelDue(loaded.value, registry, now);
    var reindexed := new FileEvent[|newEvents|];
    forall i | 0 <= i < |newEvents| {
      reindexed[i] := newEvents[i];
    }
    assert reindexed[..] == newEvents;
    ReindexEvents(reindexed);
    err := file.SaveEvents(reindexed[..], saveFault);
  }
}
