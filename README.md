# Event reminder bot: the reminder scheduling layer

This project models the reminder scheduling layer of a Telegram reminder bot and
proves properties of it in Dafny. The bot exists in two parallel variants, and both
are modelled.

- **Database variant** (`reminder/`, `db/`, `bot/`, `main.go`):
  - Events are rows of a go-pg table `events`.
  - An unlocked table `activeReminders` maps an event id to the cancel function of its reminder goroutine.
  - `/add` stores a row and then schedules it. `/delete` cancels and then deletes.
  - At start-up, past rows are deleted and future rows are scheduled again.
- **File variant** (`pkg/`):
  - Events live in `events.json`.
  - Each event has a display number `ID`, renumbered 1..N by every cleanup, and an `OriginalID`.
  - The same reminder table, under a mutex, is keyed by `OriginalID`.
  - `BotManager` validates and stores events through a database repository.
  - At fire time, a goroutine scans the file for its `OriginalID`.

How the model is built:

- **Goroutines.** A reminder goroutine becomes a task in `Tasks.TaskPool`. Its `select` between the timer and `ctx.Done()` becomes two steps that the environment chooses between:
  - `TimerFires` ends in `Fired(sent)`;
  - `CancellationWins` ends in `Cancelled`.
- **Cancel functions.** A cancel function is a `Handle`. Every call of one is logged in the ghost sequence `invoked`.
- **The reminder table.** `Registry.ReminderRegistry` models it for both variants. Its invariant `Consistent` says every registered handle belongs to a started goroutine with that key.
- **Values from outside.**
  - Time is an integer `now` passed to each step. Start-up reads the clock twice, once for the cleanup and once for the restore, so it takes two: `cleanupNow` and `restoreNow`.
  - Date parsing is a parameter `parse: string -> Option<int>`.
  - Every I/O outcome is a parameter `fault: Option<string>`: `None` means success, `Some(e)` means error `e`.
- **Bot life cycle.** `Common.Bot` records a ghost `Snapshot` when the handlers are registered and another when the bot starts. Each snapshot holds the armed ids and the stored ids at that moment. The start-up contracts use them to state what the bot saw at each step.
- **Messages.** Every message sent to Telegram is appended to an `Outbox`. Replies are named by a `Reply` constructor, with the wording kept in a comment.
- **Ordering.** `sort.Slice` and `ORDER BY sendAt ASC` are modelled as an insertion sort, `Seqs.SortBy`. Its contract is "sorted, and a permutation", and the database variant's contracts promise no more than that. The file variant's contracts are stated with `Seqs.SortBy` itself, so they also fix the order it gives equal times; "## Left out" says where.

## Model

| member | source | states |
|---|---|---|
| Text.TrimPrefix | bot/handlers.go:60 | when the prefix is there, prefix plus result is the input; otherwise the input is returned |
| Text.TrimSpace | bot/handlers.go:60 | the result is the infix of the input right after its leading white space; it has no white space at either end, and only white space was cut on both sides |
| Text.TrimmedInfix | bot/handlers.go:60 | the kept part of a trimmed string starts right after the leading white space |
| Text.TrimmedTail | bot/handlers.go:60 | everything after the kept part is white space |
| Text.SplitN | bot/handlers.go:61 | gives 1..n parts, with no separator inside any part but the last, and none in the last when fewer than n came out; joining the parts with the separator gives the input back |
| Text.SplitThree | bot/handlers.go:61-73 | three parts are the input cut at its first two separators |
| Text.Atoi | bot/handlers.go:135 | accepts exactly an optional sign followed by at least one decimal digit whose value lies in the int64 range, and then gives that value, negated after `-`; anything else, the empty string included, is an error |
| Text.AtoiFormatInt | bot/handlers.go:135 | reading back an int64 printed with `%d` gives the same number |
| Commands.AddArgs | bot/handlers.go:60-61 | an `/add` argument splits into one to three parts |
| Commands.AddArgsAccepted | bot/handlers.go:60-73 | when accepted, there are exactly three parts; date and time hold no space, and joining them with single spaces gives back the trimmed argument |
| Commands.ParseDeleteArg | bot/handlers.go:126-142 | gives no id exactly when the trimmed argument is empty, not a number exactly when `Atoi` fails on it, and otherwise the `Atoi` value |
| Commands.DeleteListedId | bot/handlers.go:126-135 | `/delete` followed by an id as `/list` prints it is read as that id |
| Seqs.InsertBy | pkg/storage/storage.go:77-79 | inserting into a sorted sequence keeps it sorted and adds exactly that element |
| Seqs.SortBy | pkg/storage/storage.go:77-79 | the result is sorted by the key and is a permutation of the input |
| Seqs.Filter | db/events.go:46-51 | keeps only elements that satisfy the condition, and every element of the input that satisfies it |
| Seqs.FilterMultiset | db/events.go:46-51 | each element that satisfies the condition is kept as often as it occurs, and no other element is kept |
| Seqs.FilterSnoc | db/events.go:46-51 | filtering an extended sequence extends the filtered one by the new element exactly when it satisfies the condition, so the kept elements stay in input order |
| Seqs.SortByMap | pkg/bot/handlers.go:211-224 | when the mapping keeps the key, sorting and then mapping is mapping and then sorting |
| Seqs.SortByMapPermutation | pkg/bot/handlers.go:211-224 | the images of the sorted rows are a permutation of the images of the rows |
| Seqs.FilterDistinct | db/events.go:46-51 | deleting rows keeps ids unique |
| Tasks.TaskPool.Spawn | reminder/reminder.go:23-26 | a fresh context and goroutine get the next handle; nothing is cancelled |
| Tasks.TaskPool.Invoke | reminder/reminder.go:61-63 | calling a cancel function logs it and changes no goroutine |
| Tasks.TaskPool.ObserveCancel | reminder/reminder.go:48-50 | a pending goroutine whose context is done ends as cancelled; its deferred cancel runs |
| Tasks.TaskPool.Complete | reminder/reminder.go:27-47 | a pending goroutine whose timer won ends as fired, sent or not; its deferred cancel runs |
| Registry.ReminderRegistry.Register | reminder/reminder.go:57-59 | the id maps to the new handle, silently replacing any earlier one, which is not invoked; other keys are unchanged (pkg/storage/storage.go:98-102 is the same) |
| Registry.ReminderRegistry.Cancel | reminder/reminder.go:61-67 | a present id has its handle invoked once and is removed; an absent id changes nothing, so a second cancel is a no-op; consistency is kept (pkg/storage/storage.go:87-96 is the same) |
| DbEvents.FromModel | db/events.go:31-39 | `ToModel` of the converted record gives the model record back |
| DbEvents.ToModelRoundTrip | db/events.go:21-39 | `FromModel(ToModel(row))` gives every field of the row back |
| DbEvents.FindEvent | db/events.go:53-61 | returns no row exactly when no row has that id, and otherwise a stored row with that id |
| DbEvents.EventTable.AddEvent | db/events.go:41-44 | success appends the row under a fresh id, which the caller sees; failure stores nothing; ids stay unique |
| DbEvents.EventTable.DeleteEvent | db/events.go:46-51 | removes every row with that id, keeps the others in order, and is no error when nothing matched |
| DbEvents.EventTable.GetEvent | db/events.go:53-62 | a missing row is no row and no error; a found row is stored and has that id |
| DbEvents.EventTable.ListEvents | db/events.go:64-70 | every row, ascending by `sendAt` |
| DbEvents.EventTable.ListUserEvents | db/events.go:72-79 | exactly that user's rows, ascending by `sendAt` |
| DbEvents.EventTable.CleanupPastEvents | db/events.go:81-86 | deletes exactly the rows with `sendAt` strictly before now; a row at now survives |
| DbReminder.Scheduler.ScheduleReminder | reminder/reminder.go:17-24 | an event not strictly after now gives no handle and changes nothing; otherwise one goroutine starts, its handle is registered under the event id and returned |
| DbReminder.Scheduler.TimerFires | reminder/reminder.go:26-47 | a lookup error sends nothing; a present row sends exactly one notification, with the chat and prefixed text captured at schedule time; an absent row sends nothing; the registry key stays |
| DbReminder.Scheduler.CancellationWins | reminder/reminder.go:48-51 | a cancelled goroutine ends without sending anything |
| DbHandlers.ParseAddCommand | bot/handlers.go:60-96 | checks in the source's order: fewer than three parts, an unparseable time, then a time before now; an accepted command has a time not before now and the third part as text |
| DbHandlers.AddHandler | bot/handlers.go:58-122 | a rejected command gets its own reply and touches neither store nor registry; a failed insert schedules nothing; a stored row is scheduled under its new id, which the reply names |
| DbHandlers.SaveAndSchedule | bot/handlers.go:98-120 | scheduling follows only a successful insert and uses the stored event |
| DbHandlers.DeleteHandler | bot/handlers.go:124-160 | a missing or non-numeric id gets its reply and neither cancels nor deletes |
| DbHandlers.CancelThenDelete | bot/handlers.go:144-158 | the reminder is cancelled before the delete, and stays cancelled when the delete fails; the reply matches the delete's outcome |
| DbHandlers.DeletedRowNotFound | reminder/reminder.go:32-46 | after a delete, the fire-time lookup of that id finds nothing, so a goroutine that lost the cancel race still sends nothing |
| DbHandlers.ListHandler | bot/handlers.go:162-198 | a query error gets `LoadFailed` and no events get `NoEvents`; otherwise there is one line per event of the chat, in query order, ascending by time |
| DbHandlers.DeleteAsWrittenHasNoId | bot/handlers.go:20 | with exact-match routing, every message that reaches `/delete` carries no id |
| DbHandlers.DeleteAsWrittenMissesListedId | bot/handlers.go:20 | with exact-match routing, `/delete <id>` never reaches the handler |
| DbHandlers.DeleteReachesListedId | bot/handlers.go:124-135 | with prefix routing, `/delete <id>` reaches the handler and is read as that id |
| DbMain.DueAfterIsFilter | main.go:74-75 | the restored rows are exactly the rows strictly after now, in list order |
| DbMain.DueAfterIsAfter | main.go:74-75 | every restored row is strictly after now |
| DbMain.ArmedAfterNow | main.go:74-77 | every restored goroutine is pending and fires after now |
| DbMain.RestoreOne | main.go:75-78 | a row after now is scheduled for its user under its id; any other row is skipped |
| DbMain.RestoreReminders | main.go:67-81 | a query error restores nothing; otherwise each row strictly after now gets exactly one goroutine, in list order, and is registered under its id; earlier keys stay |
| DbMain.ListedRowsRegistered | main.go:68-80 | rows registered from the query result cover the rows of the table |
| DbMain.Startup | main.go:50-64 | both handler registration and start see the registry and table as they are after cleanup and restore; a cleanup failure is not fatal; the rows before `cleanupNow` are deleted; at start every stored row after `restoreNow` is armed, and nothing is cancelled |
| FileStorage.EventsFile.LoadEvents | pkg/storage/storage.go:22-39 | gives the stored events or the error |
| FileStorage.EventsFile.SaveEvents | pkg/storage/storage.go:41-51 | replaces the contents, or fails and leaves them |
| FileStorage.Renumbered | pkg/storage/storage.go:81-83 | the event at position i gets number i+1 |
| FileStorage.Reindexed | pkg/storage/storage.go:72-85 | empty input is returned unchanged; otherwise the length is kept, the result is sorted by time and numbered exactly 1..N |
| FileStorage.ReindexedKeepsEvents | pkg/storage/storage.go:77-84 | apart from numbers, the output is a permutation of the input: only `ID` changes |
| FileStorage.ReindexEvents | pkg/storage/storage.go:72-85 | sorting in place and renumbering leaves the array equal to `Reindexed` of its old contents |
| FileStorage.UpcomingIsFilter | pkg/storage/storage.go:59-63 | the kept events are exactly those strictly after now, in file order |
| FileStorage.DueIsFilter | pkg/storage/storage.go:60-66 | the dropped events are exactly those not after now, in file order |
| FileStorage.CancelLogSnoc | pkg/storage/storage.go:91-95 | cancelling one more dropped event logs the handle still registered under its original id, if any |
| FileStorage.CancelDueEvent | pkg/storage/storage.go:65 | one dropped event's `CancelReminder` extends the cancel log by one event |
| FileStorage.CancelDue | pkg/storage/storage.go:59-67 | keeps the future events in order; cancels every dropped event's original id, so the registry loses exactly those keys |
| FileStorage.CleanupPastEvents | pkg/storage/storage.go:53-70 | a load error returns before anything changes; otherwise the dropped reminders are cancelled and the renumbered survivors are saved, and a save error is returned |
| FileBot.EventOfRow | pkg/bot/handlers.go:217-223 | the event number and original id are both the row id, and the time is kept |
| FileBot.RowById | pkg/bot/handlers.go:182-189 | no row exactly when no row has that id, and otherwise a stored row with it |
| FileBot.UserEventsOrdered | pkg/bot/handlers.go:211-224 | a user's events are sorted by time and are a permutation of the events of the user's rows |
| FileBot.UserEventsOfUser | pkg/bot/handlers.go:215-224 | as many events as rows, each with `ID == OriginalID` and in the user's chat |
| FileBot.EventsRepo.AddEvent | pkg/bot/handlers.go:165-169 | an insert stores the row under an id no stored row has and returns it, keeping ids distinct and below the next id; an error stores nothing |
| FileBot.EventsRepo.EventByID | pkg/bot/handlers.go:182-189 | a missing id is no row and no error |
| FileBot.EventsRepo.DeleteEvent | pkg/bot/handlers.go:192-199 | says whether a row with that id was there, and removes such rows; ids stay distinct and below the next id |
| FileBot.EventsRepo.EventsByFilters | pkg/bot/handlers.go:205-209 | the rows of that user, or the error |
| FileBot.BotManager.SendReminder | pkg/bot/handlers.go:132-137 | one notification to the chat, with the reminder prefix and the text |
| FileBot.BotManager.AddEvent | pkg/bot/handlers.go:139-178 | `invalid_format` and `past_date` write nothing; an insert error is passed on; success stores the row under an id no earlier row has and returns it as an event with `ID == OriginalID ==` the row id |
| FileBot.BotManager.DeleteEventByID | pkg/bot/handlers.go:180-202 | a lookup error or a missing row returns before any delete; otherwise the delete's error or nil; the reminder registry is not touched |
| FileBot.BotManager.GetUserEvents | pkg/bot/handlers.go:204-227 | the search error is passed on; otherwise the user's events, sorted by time, with `ID == OriginalID` |
| FileBot.BotManager.GetEventByID | pkg/bot/handlers.go:229-246 | a missing row is no event and no error; a present row is its event, numbered by its id |
| FileReminder.ContainsOriginalId | pkg/reminder/reminder.go:40-46 | the scan, which stops at the first match, is true exactly when some event has that original id |
| FileReminder.ReminderManager.ScheduleReminder | pkg/reminder/reminder.go:20-28 | an event not strictly after now registers nothing and gives no handle; otherwise the registration is keyed by `OriginalID` |
| FileReminder.ReminderManager.TimerFires | pkg/reminder/reminder.go:33-54 | a load error sends nothing; otherwise exactly one notification, with the captured chat and text, exactly when the file still holds the original id; the key stays |
| FileReminder.ReminderManager.CancellationWins | pkg/reminder/reminder.go:55-57 | a cancelled goroutine sends nothing |
| FileService.ErrorReply | pkg/botService/handlers.go:44-53 | `invalid_format` maps to the date-format reply, `past_date` to the must-be-future reply, and anything else to "Ошибка: " plus the error |
| FileService.BotService.AddHandler | pkg/botService/handlers.go:32-41 | fewer than three parts get the format hint and `AddEvent` is not called; otherwise the handler goes on with exactly three parts |
| FileService.BotService.AddAndSchedule | pkg/botService/handlers.go:43-67 | scheduling happens once, with the returned event, and only after `AddEvent` succeeded; errors are answered through `ErrorReply` |
| FileApp.CancelLogEmpty | pkg/app/app.go:42-46 | a cleanup against an empty registry invokes no cancel function |
| FileApp.UpcomingOfUpcoming | pkg/app/app.go:59-61 | when every event is after now, restore considers every event |
| FileApp.UpcomingIsAfter | pkg/storage/storage.go:59-63 | every kept event is strictly after now |
| FileApp.CleanedIsUpcoming | pkg/storage/storage.go:53-70 | after a cleanup, the file holds only events strictly after now |
| FileApp.RestoreOne | pkg/app/app.go:59-63 | an event after now is scheduled under its original id; any other event is skipped |
| FileApp.ArmUpcoming | pkg/app/app.go:59-64 | each event strictly after now gets exactly one goroutine, in stored order, and is registered under its original id; earlier keys stay |
| FileApp.RestoreReminders | pkg/app/app.go:52-65 | a load error restores nothing; otherwise the loaded events are armed as `ArmUpcoming` says |
| FileApp.Run | pkg/app/app.go:36-50 | handler registration sees an empty registry and the file as it was, so it precedes the cleanup and restore; the start sees the final registry and file; a cleanup failure is not fatal; after a clean cleanup every event in the file is after `cleanupNow`; after the restore exactly the events after `restoreNow` are armed, in file order, and nothing is cancelled |

## Left out

- Goroutines, timers, `time.After`, `context.WithCancel` and `select` are not run. They become the explicit steps `TimerFires` and `CancellationWins`, and the environment picks which happens. How timing decides the race is not modelled.
- Mutexes are left out, and so is the unlocked `activeReminders` map of the database variant. That map is a data race, which a sequential model cannot show.
- `now` is sampled once per operation, and twice at start-up. In the source, `time.Now()` runs again inside the scheduler and on every turn of the restore loops (main.go:75, pkg/app/app.go:60). So a time exactly equal to `now` passes the `/add` check, is stored, and is then refused by the scheduler. Both handlers' contracts state this case.
- JSON encoding and decoding, file access, SQL, go-pg query hooks and connection setup are not modelled. The file is a sequence of events, and the database is a sequence of rows with an id counter.
- Time-zone loading, `time.ParseInLocation` and `time.Format` are not modelled. Parsing is the `parse` parameter, and times are integers.
- The start, help and default handlers are left out: they send constant text only. The bootstrap (environment, token, database connection) and `cmd/event-reminder-bot/main.go` are left out too.
- Handler routing is not modelled, apart from the `/delete` finding below. Neither is the `pkg/` wiring, which does not type-check as written: `NewBotManager` is called with one argument, and two handlers with an extra parameter are registered.
- The file variant's `DeleteHandler` and `ListHandler` are not modelled. They call `DeleteEventByID` and `GetUserEvents`, which are modelled, and then format replies.
- `pkg/db` is not part of this model. Its repository is `FileBot.EventsRepo`, described only by what `BotManager` relies on: fresh ids, a missing row is no error, delete reports whether it removed anything, and the filter search gives one user's rows in stored order.
- Logging is not modelled. This covers the `log.Printf` of a failed cleanup or restore in both start-ups, the log of a missing event in the fire path, and the restore messages. Errors that are only logged leave the state as the contracts say, and nothing else.
- In the database variant, go-pg writes the new id back into the inserted struct. This is modelled as `AddEvent` returning the stored row.
- DbHandlers.ListHandler: each line holds the id, text and time of an event; the text formatting of the line and the header is not modelled.
- FileStorage.EventsFile.SaveEvents: a failed save leaves the contents as they were. `os.WriteFile` truncates the file before writing, so a real write error can leave it empty or partly written; the model treats a failed save as atomic.
- FileStorage.CleanupPastEvents: a save error is modelled as leaving the file unchanged, as for `SaveEvents`; the source may leave a truncated file.
- FileApp.Run: the file variant reads the clock separately for the cleanup (pkg/storage/storage.go:61) and the restore (pkg/app/app.go:60). So an event due between the two readings stays in the file and is never armed. The contract states this: every event in the file is armed only when `restoreNow <= cleanupNow`.
- FileApp.Run: when the cleanup's save fails, the contract says the file is as it was before; in the source it may be truncated, as for `SaveEvents`.
- Seqs.SortBy: an insertion sort, so it keeps equal keys in input order. `sort.Slice` is not stable, so the source gives events at the same time in an unspecified order. The contracts of `FileStorage.ReindexEvents`, `FileStorage.CleanupPastEvents`, `FileApp.Run` and `FileBot.BotManager.GetUserEvents` are stated with `Seqs.SortBy`, so they fix that one order. The display numbers of events at equal times may differ in the source. The database variant's contracts promise only "sorted, and a permutation".
- FileReminder.ReminderManager.TimerFires: the file variant's fire-time check reads the events file, while `AddEvent` and `DeleteEventByID` use the repository. The model keeps that split as written and does not relate the two stores.

## Findings

| source | as written | input that shows it | evidently intended | confidence | as-written member | corrected member |
|---|---|---|---|---|---|---|
| bot/handlers.go:20 | `/delete` is registered with an exact match, so the handler only ever receives the bare command and answers "specify an id" | the message `/delete 5`, the form the handler's own hint asks for, does not reach the handler | a prefix match, as the file variant registers it (pkg/botService/handlers.go:29) | medium, not executed | DbHandlers.DeleteAsWrittenMissesListedId | DbHandlers.DeleteReachesListedId |
