/** Value types shared by both variants of the bot: optional values, Go-style
    `(value, error)` results, and the chat transport seen as a log of messages. */
module Common {

  datatype Option<+T> = None | Some(value: T)

  /** A Go `(value, error)` pair: either the value, or the error's text. */
  datatype Result<+T> = Ok(value: T) | Err(msg: string)

  /** Every reminder notification starts with this text. */
  const ReminderPrefix: string := "🔔 Напоминание: "

  /** One line of the `/list` answer: id, text and fire time of an event. */
  datatype ListLine = ListLine(id: int, message: string, sendAt: int)

  /** The fixed answers of the chat handlers, one constructor per wording. */
  datatype Reply =
    | FormatHint              // "❗ Формат: /add 2025-08-06 15:00 Текст"
    | BadTime                 // "❗ Неверный формат времени. Используй: 2025-08-06 15:00"
    | BadDateFormat           // "❗ Недопустимый формат даты (используйте YYYY-MM-DD HH:MM)"
    | MustBeFuture            // "❗ Недопустимый формат даты (событие должно быть в будущем)"
    | SaveFailed              // "❌ Ошибка при сохранении события"
    | AddedWithId(id: int)    // "✅ Событие добавлено с ID %d!"
    | Added                   // "✅ Событие добавлено!"
    | OtherError(msg: string) // "Ошибка: %v"
    | NeedId                  // "❗ Укажите ID события, например: /delete 123"
    | IdNotNumber             // "❗ ID должен быть числом"
    | DeleteFailed            // "❌ Ошибка при удалении события"
    | Deleted                 // "✅ Событие удалено!"
    | LoadFailed              // "❌ Ошибка при загрузке событий"
    | NoEvents                // "🔍 Нет событий"
    | EventList(lines: seq<ListLine>)

  /** A message handed to the chat transport. */
  datatype Outgoing = Notify(chat: int, text: string) | Answer(chat: int, reply: Reply)

  /** The chat transport: every `SendMessage` call is appended to `sent`. */
  class Outbox {
    var sent: seq<Outgoing>

    constructor ()
      ensures sent == []
    {
      sent := [];
    }

    method Send(m: Outgoing)
      modifies this
      ensures sent == old(sent) + [m]
    {
      sent := sent + [m];
    }
  }

  /** What the program held at one step of the bot's life cycle: the ids with an armed
      reminder, and the ids of the stored events. */
  datatype Snapshot = Snapshot(armed: set<int>, stored: set<int>)

  /** The bot's life cycle: handlers become reachable once registered and the bot
      started. Each step records what the program held at that moment, so that a
      contract can say what the bot saw when it began serving. */
  class Bot {
    var handlersRegistered: bool
    var started: bool
    ghost var atRegistration: Snapshot
    ghost var atStart: Snapshot

    constructor ()
      ensures !handlersRegistered && !started
    {
      handlersRegistered, started := false, false;
      atRegistration, atStart := Snapshot({}, {}), Snapshot({}, {});
    }

    method RegisterHandlers(ghost view: Snapshot)
      modifies this
      ensures handlersRegistered && atRegistration == view
      ensures started == old(started) && atStart == old(atStart)
    {
      handlersRegistered := true;
      atRegistration := view;
    }

    method Start(ghost view: Snapshot)
      modifies this
      ensures started && atStart == view
      ensures handlersRegistered == old(handlersRegistered) && atRegistration == old(atRegistration)
    {
      started := true;
      atStart := view;
    }
  }
}
