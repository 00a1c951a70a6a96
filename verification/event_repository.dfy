/**
 * The event repository: listing by start time, lookup, the two counters, and creation of a row
 * from the fields the client supplies.
 */
module EventRepository {
  import opened Wrappers
  import opened Seqs
  import opened Schema
  import opened Store

  function StartAt(e: Event): int {
    e.fields.startAt
  }

  /** `list`: every event once, earliest start first. */
  function List(db: Database): (r: seq<Event>)
    reads db
    requires db.Valid()
    ensures SortedBy(r, StartAt, false)
    ensures multiset(r) == multiset(db.events.Rows())
    ensures forall e :: e in r <==> e in db.events.rows.Values
  {
    SortedRows(db.events, StartAt, false)
  }

  /** `findById`: the event with that id, if any. */
  function FindById(db: Database, id: string): (r: Option<Event>)
    reads db
    requires db.Valid()
    ensures r.Some? <==> id in db.events.rows
    ensures r.Some? ==> r.value.id == id && r.value in db.events.rows.Values
  {
    if id in db.events.rows then Some(db.events.rows[id]) else None
  }

  /** `findByIdAndIncrementView`: one more view, the updated event returned. */
  method IncrementViews(db: Database, id: string) returns (r: Result<Event, StoreError>)
    requires db.Valid()
    modifies db
    ensures db.Valid()
    ensures id !in old(db.events.rows) ==> r == Err(RecordNotFound) && db.events == old(db.events)
    ensures id in old(db.events.rows) ==>
      && r == Ok(old(db.events.rows[id]).(views := old(db.events.rows[id].views) + 1))
      && db.events == old(db.events).Put(id, r.value)
    ensures db.projects == old(db.projects) && db.tags == old(db.tags) && db.ideas == old(db.ideas)
    ensures db.categories == old(db.categories)
  {
    if id !in db.events.rows {
      return Err(RecordNotFound);
    }
    var event := db.events.rows[id];
    var updated := event.(views := event.views + 1);
    assert updated.id == id by { assert KeyedBy(db.events, EventId); }
    db.PutEvent(updated);
    r := Ok(updated);
  }

  /** `incrementLikes`: one more like. */
  method IncrementLikes(db: Database, id: string) returns (r: Result<Event, StoreError>)
    requires db.Valid()
    modifies db
    ensures db.Valid()
    ensures id !in old(db.events.rows) ==> r == Err(RecordNotFound) && db.events == old(db.events)
    ensures id in old(db.events.rows) ==>
      && r == Ok(old(db.events.rows[id]).(likes := old(db.events.rows[id].likes) + 1))
      && db.events == old(db.events).Put(id, r.value)
    ensures db.projects == old(db.projects) && db.tags == old(db.tags) && db.ideas == old(db.ideas)
    ensures db.categories == old(db.categories)
  {
    if id !in db.events.rows {
      return Err(RecordNotFound);
    }
    var event := db.events.rows[id];
    var updated := event.(likes := event.likes + 1);
    assert updated.id == id by { assert KeyedBy(db.events, EventId); }
    db.PutEvent(updated);
    r := Ok(updated);
  }

  /**
   * `create`: the supplied fields are stored as given (gallery and attachments as JSON values),
   * with no views, no likes and the creation time the database supplies.
   */
  method Create(db: Database, data: EventFields, id: string, now: int) returns (e: Event)
    requires db.Valid() && id !in db.events.rows
    modifies db
    ensures db.Valid()
    ensures e.id == id && e.fields == data && e.views == 0 && e.likes == 0 && e.createdAt == now
    ensures db.events == old(db.events).Insert(id, e)
    ensures FindById(db, id) == Some(e)
    ensures db.projects == old(db.projects) && db.tags == old(db.tags) && db.ideas == old(db.ideas)
    ensures db.categories == old(db.categories)
  {
    e := Event(id, data, 0, 0, now);
    db.InsertEvent(e);
  }
}
