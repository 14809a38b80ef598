/** The database variant's chat handlers for `/add`, `/delete` and `/list`. Each one
    answers its chat with exactly one reply; `/add` stores and then schedules, and
    `/delete` cancels and then deletes. */
module DbHandlers {
  import opened Common
  import opened Seqs
  import opened Tasks
  import opened Registry
  import opened DbEvents
  import opened DbReminder
  import opened Commands
  import opened Text

  /** How the `/add` handler judges a command, in the order it checks: three parts,
      then a parseable date and time, then a time not before `now`. */
  datatype AddCommand = TooFewParts | UnparsedTime | PastTime | Accepted(text: string, sendAt: int)

  function ParseAddCommand(message: string, now: int, parse: string -> Option<int>): (r: AddCommand)
    ensures r.TooFewParts? <==> |AddArgs(message)| < 3
    ensures !r.TooFewParts? ==>
              var parts := AddArgs(message);
              var dt := parse(parts[0] + " " + parts[1]);
              && |parts| == 3
              && (r.UnparsedTime? <==> dt.None?)
              && (r.PastTime? <==> dt.Some? && dt.value < now)
              && (r.Accepted? ==> dt == Some(r.sendAt) && now <= r.sendAt && r.text == parts[2])
  {
    var parts := AddArgs(message);
    if |parts| < 3 then TooFewParts
    else match parse(parts[0] + " " + parts[1])
      case None => UnparsedTime
      case Some(dt) => if dt < now then PastTime else Accepted(parts[2], dt)
  }

  /** The reply to a rejected `/add` command. */
  function RejectReply(c: AddCommand): Reply {
    match c
    case TooFewParts => FormatHint
    case UnparsedTime => BadTime
    case PastTime => MustBeFuture
    case Accepted(_, _) => SaveFailed
  }

  /** `AddHandler`. A rejected command answers with its reply and touches nothing. An
      accepted one inserts the row; a failed insert answers `SaveFailed` and schedules
      nothing. A successful one schedules the stored event under its new id and
      answers with that id. */
  method AddHandler(s: Scheduler, chat: int, message: string, now: int,
                    parse: string -> Option<int>, fault: Option<string>)
    requires s.Valid() && s.database.Valid()
    modifies s.database, s.registry, s.registry.pool, s.bot
    ensures s.Valid() && s.database.Valid()
    ensures !ParseAddCommand(message, now, parse).Accepted? ==>
              && unchanged(s.database, s.registry, s.registry.pool)
              && s.bot.sent == old(s.bot.sent) + [Answer(chat, RejectReply(ParseAddCommand(message, now, parse)))]
    ensures ParseAddCommand(message, now, parse).Accepted? ==>
              var c := ParseAddCommand(message, now, parse);
              Saved(s, chat, c.text, c.sendAt, now, fault)
  {
    var c := ParseAddCommand(message, now, parse);
    if !c.Accepted? {
      s.bot.Send(Answer(chat, RejectReply(c)));
      return;
    }
    SaveAndSchedule(s, chat, c.text, c.sendAt, now, fault);
  }

  /** What an accepted `/add` leaves behind. A failed insert: the store, the registry
      and the goroutines as they were, and the answer `SaveFailed`. A successful one:
      the row appended under the next id; when its time is after `now` one goroutine
      started for it and registered under that id (a time equal to `now` passed the
      handler's check but is refused by the scheduler); the answer names the id. */
  twostate predicate Saved(s: Scheduler, chat: int, text: string, sendAt: int, now: int, fault: Option<string>)
    reads s, s.database, s.registry, s.registry.pool, s.bot
  {
    var id := old(s.database.nextId);
    && s.registry.pool.invoked == old(s.registry.pool.invoked)
    && (fault.Some? ==>
          && s.database.rows == old(s.database.rows) && s.database.nextId == id
          && s.registry.pool.tasks == old(s.registry.pool.tasks) && s.registry.active == old(s.registry.active)
          && s.bot.sent == old(s.bot.sent) + [Answer(chat, SaveFailed)])
    && (fault.None? ==>
          && s.database.rows == old(s.database.rows) + [DbRow(id, chat, text, sendAt, now)]
          && s.database.nextId == id + 1
          && (sendAt > now ==>
                && s.registry.pool.tasks == old(s.registry.pool.tasks) + [Task(id, chat, text, sendAt, Pending)]
                && s.registry.active == old(s.registry.active)[id := old(|s.registry.pool.tasks|)])
          && (sendAt <= now ==>
                s.registry.pool.tasks == old(s.registry.pool.tasks) && s.registry.active == old(s.registry.active))
          && s.bot.sent == old(s.bot.sent) + [Answer(chat, AddedWithId(id))])
  }

  /** The part of `AddHandler` after the checks: insert, then schedule, then answer. */
  method SaveAndSchedule(s: Scheduler, chat: int, text: string, sendAt: int, now: int, fault: Option<string>)
    requires s.Valid() && s.database.Valid()
    modifies s.database, s.registry, s.registry.pool, s.bot
    ensures s.Valid() && s.database.Valid()
    ensures Saved(s, chat, text, sendAt, now, fault)
  {
    var err, stored := s.database.AddEvent(DbRow(0, chat, text, sendAt, now), fault);
    if err.Some? {
      s.bot.Send(Answer(chat, SaveFailed));
      return;
    }
    var _ := s.ScheduleReminder(chat, stored.ToModel(), now);
    s.bot.Send(Answer(chat, AddedWithId(stored.eventId)));
  }

  /** `DeleteHandler`. A missing or non-numeric id answers with its own reply and
      touches nothing; a number goes on to `CancelThenDelete`. */
  method DeleteHandler(s: Scheduler, chat: int, message: string, fault: Option<string>)
    requires s.Valid() && s.database.Valid()
    modifies s.database, s.registry, s.registry.pool, s.bot
    ensures s.Valid() && s.database.Valid()
    ensures ParseDeleteArg(message).NoId? ==>
              unchanged(s.database, s.registry, s.registry.pool) && s.bot.sent == old(s.bot.sent) + [Answer(chat, NeedId)]
    ensures ParseDeleteArg(message).NotANumber? ==>
              unchanged(s.database, s.registry, s.registry.pool) && s.bot.sent == old(s.bot.sent) + [Answer(chat, IdNotNumber)]
    ensures ParseDeleteArg(message).EventId? ==> DeleteDone(s, chat, ParseDeleteArg(message).id, fault)
  {
    var arg := ParseDeleteArg(message);
    if arg.NoId? {
      s.bot.Send(Answer(chat, NeedId));
      return;
    }
    if arg.NotANumber? {
      s.bot.Send(Answer(chat, IdNotNumber));
      return;
    }
    CancelThenDelete(s, chat, arg.id, fault);
  }

  /** What a `/delete` with a numeric id leaves behind: the reminder registered under
      the id cancelled (its handle invoked once and the key gone, or nothing when none
      was registered) whatever the delete did; the id's rows gone after a successful
      delete and all rows kept after a failed one, with the matching answer. */
  twostate predicate DeleteDone(s: Scheduler, chat: int, id: int, fault: Option<string>)
    reads s, s.database, s.registry, s.registry.pool, s.bot
  {
    && s.registry.active == old(s.registry.active) - {id}
    && s.registry.pool.tasks == old(s.registry.pool.tasks)
    && s.registry.pool.invoked == old(s.registry.pool.invoked)
       + (if id in old(s.registry.active) then [old(s.registry.active)[id]] else [])
    && s.database.rows == (if fault.None? then WithoutEvent(old(s.database.rows), id) else old(s.database.rows))
    && s.bot.sent == old(s.bot.sent) + [Answer(chat, if fault.None? then Deleted else DeleteFailed)]
  }

  /** The part of `DeleteHandler` after the checks: cancel, then delete, then answer. */
  method CancelThenDelete(s: Scheduler, chat: int, id: int, fault: Option<string>)
    requires s.Valid() && s.database.Valid()
    modifies s.database, s.registry, s.registry.pool, s.bot
    ensures s.Valid() && s.database.Valid()
    ensures DeleteDone(s, chat, id, fault)
  {
    s.registry.Cancel(id);
    var err := s.database.DeleteEvent(id, fault);
    if err.Some? {
      s.bot.Send(Answer(chat, DeleteFailed));
      return;
    }
    s.bot.Send(Answer(chat, Deleted));
  }

  /** After a successful delete the fire-time lookup of that id finds no row, so a
      goroutine whose cancellation lost the race still sends nothing. */
  lemma DeletedRowNotFound(rows: seq<DbRow>, id: int)
    ensures FindEvent(WithoutEvent(rows, id), id).None?
  {
  }

  /** One line of the `/list` answer. */
  function LineOf(r: DbRow): ListLine {
    ListLine(r.eventId, r.message, r.sendAt)
  }

  /** `ListHandler`. A failed query answers `LoadFailed`; a chat without events answers
      `NoEvents`; otherwise the answer has one line per event of this chat, in the
      order the query returned them, which is ascending fire time. `listed` is that
      query result. Nothing but the outbox changes. */
  method ListHandler(s: Scheduler, chat: int, fault: Option<string>) returns (listed: seq<DbRow>)
    modifies s.bot
    ensures fault.Some? ==> s.bot.sent == old(s.bot.sent) + [Answer(chat, LoadFailed)]
    ensures fault.None? ==> SortedBy(listed, SendAtOf) && multiset(listed) == multiset(UserRows(s.database.rows, chat))
    ensures fault.None? && |listed| == 0 ==> s.bot.sent == old(s.bot.sent) + [Answer(chat, NoEvents)]
    ensures fault.None? && |listed| > 0 ==> s.bot.sent == old(s.bot.sent) + [Answer(chat, EventList(MapSeq(LineOf, listed)))]
  {
    listed := [];
    var events := s.database.ListUserEvents(chat, fault);
    if events.Err? {
      s.bot.Send(Answer(chat, LoadFailed));
      return;
    }
    listed := events.value;
    if |listed| == 0 {
      s.bot.Send(Answer(chat, NoEvents));
      return;
    }
    var lines: seq<ListLine> := [];
    var i := 0;
    while i < |listed|
      invariant 0 <= i <= |listed|
      invariant lines == MapSeq(LineOf, listed[..i])
    {
      lines := lines + [LineOf(listed[i])];
      i := i + 1;
    }
    assert listed[..i] == listed;
    s.bot.Send(Answer(chat, EventList(lines)));
  }

  /** Whether a text message reaches the `/delete` handler as `RegisterHandlers`
      registers it: by exact match, so only the bare command word does. */
  predicate ReachesDeleteAsWritten(text: string) {
    text == "/delete"
  }

  /** Whether a text message reaches the `/delete` handler under a prefix match, as the
      file variant registers it and as the handler's own argument parsing expects. */
  predicate ReachesDelete(text: string) {
    "/delete" <= text
  }

  /** As registered, every message the `/delete` handler receives has no id, so it
      always answers `NeedId` and never cancels or deletes anything. */
  lemma DeleteAsWrittenHasNoId(text: string)
    requires ReachesDeleteAsWritten(text)
    ensures ParseDeleteArg(text) == NoId
  {
  }

  /** As registered, the command `/delete <id>` for an id the `/list` answer shows does
      not reach the `/delete` handler at all. */
  lemma DeleteAsWrittenMissesListedId(id: int)
    ensures !ReachesDeleteAsWritten("/delete " + FormatInt(id))
  {
  }

  /** Under a prefix match, `/delete <id>` for an id the `/list` answer shows reaches
      the handler and is read as that id. */
  lemma DeleteReachesListedId(id: int)
    requires MinInt64 <= id <= MaxInt64
    ensures ReachesDelete("/delete " + FormatInt(id))
    ensures ParseDeleteArg("/delete " + FormatInt(id)) == EventId(id)
  {
    DeleteListedId(id);
  }
}
