/** The file variant's `BotManager`: the event logic behind the chat commands, over
    the database repository `EventsRepo`, and the sending of reminders. */
module FileBot {
  import opened Common
  import opened Seqs
  import opened FileStorage

  /** A row of the repository. */
  datatype RepoRow = RepoRow(id: int, userTgId: int, message: string, sendAt: int)

  function RowSendAt(r: RepoRow): int { r.sendAt }

  /** The event shown to the chat for a repository row: both numbers are the row id. */
  function EventOfRow(r: RepoRow): (e: FileEvent)
    ensures e.id == e.originalId == r.id
    ensures DateTimeOf(e) == RowSendAt(r)
  {
    FileEvent(r.id, r.id, r.userTgId, r.message, r.sendAt)
  }

  ghost predicate HasRow(rows: seq<RepoRow>, id: int) {
    exists k :: 0 <= k < |rows| && rows[k].id == id
  }

  function RowId(r: RepoRow): int { r.id }

  /** What the table's auto-increment key keeps: no two rows share an id, and every
      id is below the next one the table hands out. */
  ghost predicate WellNumbered(rows: seq<RepoRow>, nextId: int) {
    && DistinctBy(rows, RowId)
    && forall i :: 0 <= i < |rows| ==> rows[i].id < nextId
  }

  /** The row with that id, if any. */
  function RowById(rows: seq<RepoRow>, id: int): (r: Option<RepoRow>)
    ensures r.None? <==> !HasRow(rows, id)
    ensures r.Some? ==> r.value in rows && r.value.id == id
    decreases |rows|
  {
    if |rows| == 0 then None
    else if rows[0].id == id then Some(rows[0])
    else
      var r := RowById(rows[1..], id);
      assert forall k :: 1 <= k < |rows| ==> rows[k] == rows[1..][k - 1];
      assert r.Some? ==> rows[1..][0] == rows[1];
      r
  }

  /** The rows of one user. */
  function UserRows(rows: seq<RepoRow>, user: int): seq<RepoRow> {
    Filter((x: RepoRow) => x.userTgId == user, rows)
  }

  /** What `GetUserEvents` answers: the user's rows ordered by time, as events. */
  function UserEvents(rows: seq<RepoRow>, user: int): seq<FileEvent> {
    MapSeq(EventOfRow, SortBy(UserRows(rows, user), RowSendAt))
  }

  /** The events of a user are ordered by time, and hold the events of the user's
      rows, each as often as the row is there. */
  lemma UserEventsOrdered(rows: seq<RepoRow>, user: int)
    ensures var r := UserEvents(rows, user);
            && SortedBy(r, DateTimeOf)
            && multiset(r) == multiset(MapSeq(EventOfRow, UserRows(rows, user)))
  {
    var mine := UserRows(rows, user);
    SortByMap(EventOfRow, mine, RowSendAt, DateTimeOf);
    SortByMapPermutation(EventOfRow, mine, RowSendAt, DateTimeOf);
  }

  /** The events of a user are as many as the user's rows, all in that user's chat,
      and numbered by row id. */
  lemma UserEventsOfUser(rows: seq<RepoRow>, user: int)
    ensures var r := UserEvents(rows, user);
            && |r| == |UserRows(rows, user)|
            && forall i :: 0 <= i < |r| ==> r[i].id == r[i].originalId && r[i].chatId == user
  {
    var mine := UserRows(rows, user);
    var sorted := SortBy(mine, RowSendAt);
    forall i | 0 <= i < |sorted| ensures sorted[i].userTgId == user {
      assert sorted[i] in multiset(mine);
    }
  }

  /** The database repository of this variant, by what its calls answer: inserts
      get fresh ids, a lookup of a missing id answers no row, a delete says whether it
      removed anything, and the filter search gives the rows of one user. */
  class EventsRepo {
    var rows: seq<RepoRow>
    var nextId: int

    ghost predicate Valid()
      reads this
    {
      WellNumbered(rows, nextId)
    }

    constructor (rows: seq<RepoRow>, nextId: int)
      requires WellNumbered(rows, nextId)
      ensures Valid()
      ensures this.rows == rows && this.nextId == nextId
    {
      this.rows := rows;
      this.nextId := nextId;
    }

    /** An insert: on success the row is stored under an id no stored row has. */
    method AddEvent(e: RepoRow, fault: Option<string>) returns (r: Result<RepoRow>)
      requires Valid()
      modifies this
      ensures Valid()
      ensures fault.Some? ==> r == Err(fault.value) && rows == old(rows) && nextId == old(nextId)
      ensures fault.None? ==> r == Ok(e.(id := old(nextId)))
                              && rows == old(rows) + [r.value] && nextId == old(nextId) + 1
      ensures fault.None? ==> !HasRow(old(rows), r.value.id)
    {
      if fault.Some? {
        return Err(fault.value);
      }
      r := Ok(e.(id := nextId));
      rows := rows + [r.value];
      nextId := nextId + 1;
    }

    method EventByID(id: int, fault: Option<string>) returns (r: Result<Option<RepoRow>>)
      ensures fault.Some? ==> r == Err(fault.value)
      ensures fault.None? ==> r == Ok(RowById(rows, id))
    {
      if fault.Some? {
        return Err(fault.value);
      }
      r := Ok(RowById(rows, id));
    }

    method DeleteEvent(id: int, fault: Option<string>) returns (r: Result<bool>)
      requires Valid()
      modifies this
      ensures Valid()
      ensures fault.Some? ==> r == Err(fault.value) && rows == old(rows)
      ensures fault.None? ==> r == Ok(HasRow(old(rows), id))
                              && rows == Filter((x: RepoRow) => x.id != id, old(rows))
      ensures nextId == old(nextId)
    {
      if fault.Some? {
        return Err(fault.value);
      }
      r := Ok(RowById(rows, id).Some?);
      FilterDistinct((x: RepoRow) => x.id != id, rows, RowId);
      rows := Filter((x: RepoRow) => x.id != id, rows);
    }

    method EventsByFilters(user: int, fault: Option<string>) returns (r: Result<seq<RepoRow>>)
      ensures fault.Some? ==> r == Err(fault.value)
      ensures fault.None? ==> r == Ok(UserRows(rows, user))
    {
      if fault.Some? {
        return Err(fault.value);
      }
      r := Ok(UserRows(rows, user));
    }
  }

  class BotManager {
    const repo: EventsRepo
    /** The bot the manager sends through. */
    const bot: Outbox

    constructor (repo: EventsRepo, bot: Outbox)
      ensures this.repo == repo && this.bot == bot
    {
      this.repo := repo;
      this.bot := bot;
    }

    /** `SendReminder`: one notification to the chat, the text after the reminder prefix. */
    method SendReminder(chatId: int, text: string)
      modifies bot
      ensures bot.sent == old(bot.sent) + [Notify(chatId, ReminderPrefix + text)]
    {
      bot.Send(Notify(chatId, ReminderPrefix + text));
    }

    /** `AddEvent`, given at least the three parts it reads. An unparseable date and
        time is `invalid_format`, a time before `now` is `past_date`, and neither
        writes to the repository; an insert error is passed on. Otherwise the row is
        inserted and the result is the event under the row's id, both as its number and
        as its original id, with chat, text and time taken from the stored row. */
    method AddEvent(chatId: int, parts: seq<string>, now: int, parse: string -> Option<int>, fault: Option<string>)
      returns (r: Result<FileEvent>)
      requires |parts| >= 3
      requires repo.Valid()
      modifies repo
      ensures repo.Valid()
      ensures var dt := parse(parts[0] + " " + parts[1]);
              && (dt.None? ==> r == Err("invalid_format") && unchanged(repo))
              && (dt.Some? && dt.value < now ==> r == Err("past_date") && unchanged(repo))
              && (dt.Some? && dt.value >= now && fault.Some? ==>
                    r == Err(fault.value) && repo.rows == old(repo.rows) && repo.nextId == old(repo.nextId))
              && (dt.Some? && dt.value >= now && fault.None? ==>
                    var row := RepoRow(old(repo.nextId), chatId, parts[2], dt.value);
                    && !HasRow(old(repo.rows), row.id)
                    && repo.rows == old(repo.rows) + [row] && repo.nextId == old(repo.nextId) + 1
                    && r == Ok(FileEvent(row.id, row.id, chatId, parts[2], dt.value)))
    {
      var datePart, timePart, text := parts[0], parts[1], parts[2];
      var dt := parse(datePart + " " + timePart);
      if dt.None? {
        return Err("invalid_format");
      }
      if dt.value < now {
        return Err("past_date");
      }
      var added := repo.AddEvent(RepoRow(0, chatId, text, dt.value), fault);
      if added.Err? {
        return Err(added.msg);
      }
      r := Ok(EventOfRow(added.value));
    }

    /** `DeleteEventByID`. A lookup error is passed on, and a missing row is `event not
        found`; neither deletes. Otherwise the delete's error is passed on, or, when it
        removed nothing, `event not found`; a removal answers no error. The reminder
        registry is not touched. */
    method DeleteEventByID(id: int, lookupFault: Option<string>, deleteFault: Option<string>)
      returns (err: Option<string>)
      requires repo.Valid()
      modifies repo
      ensures repo.Valid()
      ensures repo.nextId == old(repo.nextId)
      ensures lookupFault.Some? ==> err == lookupFault && repo.rows == old(repo.rows)
      ensures lookupFault.None? && !HasRow(old(repo.rows), id) ==>
                err == Some("event not found") && repo.rows == old(repo.rows)
      ensures lookupFault.None? && HasRow(old(repo.rows), id) ==>
                && err == deleteFault
                && repo.rows == if deleteFault.None? then Filter((x: RepoRow) => x.id != id, old(repo.rows)) else old(repo.rows)
    {
      var event := repo.EventByID(id, lookupFault);
      if event.Err? {
        return Some(event.msg);
      }
      if event.value.None? {
        return Some("event not found");
      }
      var deleted := repo.DeleteEvent(id, deleteFault);
      if deleted.Err? {
        return Some(deleted.msg);
      }
      if !deleted.value {
        return Some("event not found");
      }
      err := None;
    }

    /** `GetUserEvents`: the search error is passed on; otherwise one event per row of
        the chat, ordered by time, each with the row id as both numbers. */
    method GetUserEvents(chatId: int, fault: Option<string>) returns (r: Result<seq<FileEvent>>)
      ensures fault.Some? ==> r == Err(fault.value)
      ensures fault.None? ==> r == Ok(UserEvents(repo.rows, chatId))
    {
      var found := repo.EventsByFilters(chatId, fault);
      if found.Err? {
        return Err(found.msg);
      }
      var dbEvents := SortBy(found.value, RowSendAt);
      var events := new FileEvent[|dbEvents|];
      for i := 0 to |dbEvents|
        invariant forall k :: 0 <= k < i ==> events[k] == EventOfRow(dbEvents[k])
      {
        events[i] := EventOfRow(dbEvents[i]);
      }
      assert events[..] == MapSeq(EventOfRow, dbEvents) by {
        assert forall k :: 0 <= k < events.Length ==> events[..][k] == events[k];
      }
      r := Ok(events[..]);
    }

    /** `GetEventByID`: the lookup error is passed on, a missing row is no event and no
        error, and a present row is its event. */
    method GetEventByID(id: int, fault: Option<string>) returns (r: Result<Option<FileEvent>>)
      ensures fault.Some? ==> r == Err(fault.value)
      ensures fault.None? && !HasRow(repo.rows, id) ==> r == Ok(None)
      ensures fault.None? && HasRow(repo.rows, id) ==>
                r.Ok? && r.value.Some? && r.value.value.id == r.value.value.originalId == id
                && exists k :: 0 <= k < |repo.rows| && r.value.value == EventOfRow(repo.rows[k])
    {
      var dbEvent := repo.EventByID(id, fault);
      if dbEvent.Err? {
        return Err(dbEvent.msg);
      }
      if dbEvent.value.None? {
        return Ok(None);
      }
      r := Ok(Some(EventOfRow(dbEvent.value.value)));
    }
  }
}
