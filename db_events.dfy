/** The database variant's event store, table `events`, by what its go-pg queries
    do: rows carry a database-assigned id, inserts append a row with a fresh id,
    deletes and the past-event cleanup remove matching rows, and the list queries
    return rows ordered by fire time. */
module DbEvents {
  import opened Common
  import opened Seqs

  /** The application's event record. */
  datatype ModelEvent = ModelEvent(id: int, userTgId: int, message: string, sendAt: int, createdAt: int)

  /** A row of table `events`. */
  datatype DbRow = DbRow(eventId: int, userTgId: int, message: string, sendAt: int, createdAt: int) {
    /** `ToModel`: copies every field, the id under its model name. */
    function ToModel(): ModelEvent {
      ModelEvent(eventId, userTgId, message, sendAt, createdAt)
    }
  }

  /** `FromModel`: converting back with `ToModel` gives the record again. */
  function FromModel(m: ModelEvent): (r: DbRow)
    ensures r.ToModel() == m
  {
    DbRow(m.id, m.userTgId, m.message, m.sendAt, m.createdAt)
  }

  /** Converting a row to the model record and back gives the row again. */
  lemma ToModelRoundTrip(e: DbRow)
    ensures FromModel(e.ToModel()) == e
  {
  }

  function EventIdOf(r: DbRow): int { r.eventId }

  function SendAtOf(r: DbRow): int { r.sendAt }

  /** The rows left after `DELETE ... WHERE eventId = ?`. */
  function WithoutEvent(rows: seq<DbRow>, eventId: int): seq<DbRow> {
    Filter((r: DbRow) => r.eventId != eventId, rows)
  }

  /** The rows of `SELECT ... WHERE userTgId = ?`, before ordering. */
  function UserRows(rows: seq<DbRow>, user: int): seq<DbRow> {
    Filter((r: DbRow) => r.userTgId == user, rows)
  }

  /** The rows left after `DELETE ... WHERE sendAt < now`. */
  function NotBefore(rows: seq<DbRow>, now: int): seq<DbRow> {
    Filter((r: DbRow) => r.sendAt >= now, rows)
  }

  /** The row of `SELECT ... WHERE eventId = ?`: none when no row has that id. */
  function FindEvent(rows: seq<DbRow>, eventId: int): (r: Option<DbRow>)
    ensures r.None? <==> forall i :: 0 <= i < |rows| ==> rows[i].eventId != eventId
    ensures r.Some? ==> r.value in rows && r.value.eventId == eventId
    decreases |rows|
  {
    if |rows| == 0 then None
    else if rows[0].eventId == eventId then Some(rows[0])
    else
      var r := FindEvent(rows[1..], eventId);
      assert forall i :: 1 <= i < |rows| ==> rows[i] == rows[1..][i - 1];
      r
  }

  class EventTable {
    var rows: seq<DbRow>
    /** The next value of the id sequence. */
    var nextId: int

    /** Ids are unique, and all below the next id the sequence hands out. */
    ghost predicate Valid()
      reads this
    {
      && DistinctBy(rows, EventIdOf)
      && forall i :: 0 <= i < |rows| ==> rows[i].eventId < nextId
    }

    constructor (rows: seq<DbRow>, nextId: int)
      requires DistinctBy(rows, EventIdOf)
      requires forall i :: 0 <= i < |rows| ==> rows[i].eventId < nextId
      ensures Valid() && this.rows == rows && this.nextId == nextId
    {
      this.rows := rows;
      this.nextId := nextId;
    }

    /** `AddEvent`: on success the row is stored with a fresh id, which the caller sees
        in `stored`; on failure nothing is stored. */
    method AddEvent(e: DbRow, fault: Option<string>) returns (err: Option<string>, stored: DbRow)
      requires Valid()
      modifies this
      ensures Valid()
      ensures err == fault
      ensures fault.Some? ==> rows == old(rows) && nextId == old(nextId) && stored == e
      ensures fault.None? ==> stored == e.(eventId := old(nextId))
                              && rows == old(rows) + [stored] && nextId == old(nextId) + 1
    {
      err, stored := fault, e;
      if fault.None? {
        stored := e.(eventId := nextId);
        rows := rows + [stored];
        nextId := nextId + 1;
      }
    }

    /** `DeleteEvent`: removes every row with that id and leaves the others; no error
        when nothing matched. */
    method DeleteEvent(eventId: int, fault: Option<string>) returns (err: Option<string>)
      modifies this
      ensures err == fault
      ensures rows == if fault.None? then WithoutEvent(old(rows), eventId) else old(rows)
      ensures nextId == old(nextId)
      ensures old(Valid()) ==> Valid()
    {
      err := fault;
      if fault.None? {
        if Valid() {
          FilterDistinct((r: DbRow) => r.eventId != eventId, rows, EventIdOf);
        }
        rows := WithoutEvent(rows, eventId);
      }
    }

    /** `GetEvent`: a missing row is `Ok(None)`, not an error. */
    method GetEvent(eventId: int, fault: Option<string>) returns (r: Result<Option<DbRow>>)
      ensures fault.Some? ==> r == Err(fault.value)
      ensures fault.None? ==> r.Ok?
      ensures r == Ok(None) <==> fault.None? && forall i :: 0 <= i < |rows| ==> rows[i].eventId != eventId
      ensures r.Ok? && r.value.Some? ==> r.value.value in rows && r.value.value.eventId == eventId
    {
      if fault.Some? {
        return Err(fault.value);
      }
      r := Ok(FindEvent(rows, eventId));
    }

    /** `ListEvents`: every row, ascending by fire time. */
    method ListEvents(fault: Option<string>) returns (r: Result<seq<DbRow>>)
      ensures fault.Some? ==> r == Err(fault.value)
      ensures fault.None? ==> r.Ok? && SortedBy(r.value, SendAtOf) && multiset(r.value) == multiset(rows)
    {
      if fault.Some? {
        return Err(fault.value);
      }
      r := Ok(SortBy(rows, SendAtOf));
    }

    /** `ListUserEvents`: exactly the rows of one user, ascending by fire time. */
    method ListUserEvents(user: int, fault: Option<string>) returns (r: Result<seq<DbRow>>)
      ensures fault.Some? ==> r == Err(fault.value)
      ensures fault.None? ==> r.Ok? && SortedBy(r.value, SendAtOf)
                              && multiset(r.value) == multiset(UserRows(rows, user))
      ensures r.Ok? ==> forall i :: 0 <= i < |r.value| ==> r.value[i].userTgId == user
    {
      if fault.Some? {
        return Err(fault.value);
      }
      var mine := UserRows(rows, user);
      var sorted := SortBy(mine, SendAtOf);
      forall i | 0 <= i < |sorted| ensures sorted[i].userTgId == user {
        assert sorted[i] in multiset(mine);
      }
      r := Ok(sorted);
    }

    /** `CleanupPastEvents`: deletes exactly the rows due strictly before `now`; a row
        due at `now` survives. */
    method CleanupPastEvents(now: int, fault: Option<string>) returns (err: Option<string>)
      modifies this
      ensures err == fault
      ensures rows == if fault.None? then NotBefore(old(rows), now) else old(rows)
      ensures nextId == old(nextId)
      ensures old(Valid()) ==> Valid()
    {
      err := fault;
      if fault.None? {
        if Valid() {
          FilterDistinct((r: DbRow) => r.sendAt >= now, rows, EventIdOf);
        }
        rows := NotBefore(rows, now);
      }
    }
  }
}
