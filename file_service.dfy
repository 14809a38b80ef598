/** The file variant's `BotService`: the `/add` handler, which checks the command's
    shape, lets `BotManager.AddEvent` validate and store the event, turns its errors
    into replies, and schedules the reminder of a stored event. */
module FileService {
  import opened Common
  import opened Tasks
  import opened Registry
  import opened Commands
  import opened FileStorage
  import opened FileBot
  import opened FileReminder

  /** The reply to an `AddEvent` error: the two validation errors have their own
      wording, and any other error is shown after "Ошибка: ". */
  function ErrorReply(err: string): (r: Reply)
    ensures err == "invalid_format" ==> r == BadDateFormat
    ensures err == "past_date" ==> r == MustBeFuture
    ensures err != "invalid_format" && err != "past_date" ==> r == OtherError(err)
  {
    if err == "invalid_format" then BadDateFormat
    else if err == "past_date" then MustBeFuture
    else OtherError(err)
  }

  class BotService {
    /** The bot the handler answers through. */
    const bot: Outbox
    const bm: BotManager
    const rm: ReminderManager

    ghost predicate Valid()
      reads this, bm, bm.repo, rm, rm.registry, rm.registry.pool
    {
      rm.Valid() && bm.repo.Valid()
    }

    constructor (bot: Outbox, bm: BotManager, rm: ReminderManager)
      requires rm.Valid() && bm.repo.Valid()
      ensures Valid()
      ensures this.bot == bot && this.bm == bm && this.rm == rm
    {
      this.bot := bot;
      this.bm := bm;
      this.rm := rm;
    }

    /** `AddHandler`. Fewer than three parts answer the format hint without calling
        `AddEvent`; otherwise the handler goes on with exactly three parts. */
    method AddHandler(chat: int, message: string, now: int, parse: string -> Option<int>, fault: Option<string>)
      requires Valid()
      modifies bm.repo, rm.registry, rm.registry.pool, bot
      ensures Valid()
      ensures |AddArgs(message)| < 3 ==>
                && unchanged(bm.repo, rm.registry, rm.registry.pool)
                && bot.sent == old(bot.sent) + [Answer(chat, FormatHint)]
      ensures |AddArgs(message)| == 3 ==> AddDone(chat, AddArgs(message), now, parse, fault)
    {
      var parts := AddArgs(message);
      if |parts| < 3 {
        bot.Send(Answer(chat, FormatHint));
        return;
      }
      AddAndSchedule(chat, parts, now, parse, fault);
    }

    /** What `AddHandler` leaves behind for three parts. When `AddEvent` fails (an
        unparseable time, a time before `now`, an insert error) the repository, the
        registry and the goroutines are as they were and the error is answered through
        `ErrorReply`. Otherwise the row is stored under the next id, the returned event
        is scheduled once (a time equal to `now` passes `AddEvent` but the scheduler
        refuses it), and the answer is `Added`. */
    twostate predicate AddDone(chat: int, parts: seq<string>, now: int, parse: string -> Option<int>, fault: Option<string>)
      requires |parts| == 3
      reads this, bm, bm.repo, rm, rm.registry, rm.registry.pool, bot
    {
      var dt := parse(parts[0] + " " + parts[1]);
      var stored := dt.Some? && dt.value >= now && fault.None?;
      && rm.registry.pool.invoked == old(rm.registry.pool.invoked)
      && (!stored ==>
            && bm.repo.rows == old(bm.repo.rows)
            && rm.registry.active == old(rm.registry.active)
            && rm.registry.pool.tasks == old(rm.registry.pool.tasks)
            && bot.sent == old(bot.sent) + [Answer(chat, ErrorReply(
                 if dt.None? then "invalid_format" else if dt.value < now then "past_date" else fault.value))])
      && (stored ==>
            var id := old(bm.repo.nextId);
            && !HasRow(old(bm.repo.rows), id)
            && bm.repo.rows == old(bm.repo.rows) + [RepoRow(id, chat, parts[2], dt.value)]
            && (dt.value > now ==>
                  && rm.registry.pool.tasks == old(rm.registry.pool.tasks) + [Task(id, chat, parts[2], dt.value, Pending)]
                  && rm.registry.active == old(rm.registry.active)[id := old(|rm.registry.pool.tasks|)])
            && (dt.value == now ==>
                  rm.registry.pool.tasks == old(rm.registry.pool.tasks) && rm.registry.active == old(rm.registry.active))
            && bot.sent == old(bot.sent) + [Answer(chat, Added)])
    }

    /** The part of `AddHandler` after the split: `AddEvent`, then on success
        `ScheduleReminder` with the returned event, then the answer. */
    method AddAndSchedule(chat: int, parts: seq<string>, now: int, parse: string -> Option<int>, fault: Option<string>)
      requires Valid() && |parts| == 3
      modifies bm.repo, rm.registry, rm.registry.pool, bot
      ensures Valid()
      ensures AddDone(chat, parts, now, parse, fault)
    {
      var event := bm.AddEvent(chat, parts, now, parse, fault);
      if event.Err? {
        bot.Send(Answer(chat, ErrorReply(event.msg)));
        return;
      }
      var _ := rm.ScheduleReminder(event.value, now);
      bot.Send(Answer(chat, Added));
    }
  }
}
