/** The `/api/events` route handlers: a store of calendar events kept in one JSON
    document that every request reads whole, changes in memory and writes back whole. */
module EventStore {
  import opened Wrappers
  import opened Text
  import Js

  /** A stored calendar event. `eventType` is the JSON field `type`; the handlers
      store whatever text the client sends there. */
  datatype Event = Event(id: int, title: string, time: string, date: string, eventType: string,
                         createdAt: string, updatedAt: string)

  /** The persisted document `{events, nextId}`. */
  datatype Database = Database(events: seq<Event>, nextId: int)

  /** What the backing file holds: nothing yet, text that does not parse, or a database. */
  datatype Document = Missing | Unparseable | Stored(db: Database)

  /** The JSON body of a response. */
  datatype Body = EventList(events: seq<Event>) | OneEvent(event: Event) | Failure(error: string)

  datatype Response = Response(status: int, body: Body)

  /** The fields a POST body supplies; `""` stands for a missing, null or empty field
      (all of them falsy). */
  datatype CreateRequest = CreateRequest(title: string, time: string, date: string, eventType: string)

  /** The fields a PUT body supplies; `id` is whatever JSON value the client sent. */
  datatype UpdateRequest = UpdateRequest(id: Js.Value, title: string, time: string, date: string, eventType: string)

  /** The ids are positive, strictly increasing along the list, and below `nextId`. */
  ghost predicate WellFormed(db: Database) {
    && 1 <= db.nextId
    && (forall i :: 0 <= i < |db.events| ==> 1 <= db.events[i].id < db.nextId)
    && (forall i, j :: 0 <= i < j < |db.events| ==> db.events[i].id < db.events[j].id)
  }

  /** `readDatabase()`: a file that is missing or does not parse reads as the empty store. */
  function ReadDatabase(doc: Document): (db: Database)
    ensures doc.Stored? ==> db == doc.db
    ensures !doc.Stored? ==> db.events == [] && db.nextId == 1 && WellFormed(db)
  {
    if doc.Stored? then doc.db else Database([], 1)
  }

  /** `events.findIndex(e => e.id === id)`: strict equality never matches a non-number. */
  function FindIndex(events: seq<Event>, id: Js.Value): (i: int)
    ensures -1 <= i < |events|
    ensures i >= 0 ==> Js.Num(events[i].id) == id && forall j :: 0 <= j < i ==> Js.Num(events[j].id) != id
    ensures i == -1 <==> forall j :: 0 <= j < |events| ==> Js.Num(events[j].id) != id
  {
    if events == [] then -1
    else if Js.Num(events[0].id) == id then 0
    else
      var k := FindIndex(events[1..], id);
      if k == -1 then -1 else k + 1
  }

  /** `a || b` on two strings. */
  function OrElse(a: string, b: string): string {
    if a != "" then a else b
  }

  /** The update of PUT: each of title, time, date and type takes the supplied value
      when it is truthy and keeps the stored one otherwise; `updatedAt` is the clock. */
  function Merge(e: Event, req: UpdateRequest, now: string): (r: Event)
    ensures r.id == e.id && r.createdAt == e.createdAt && r.updatedAt == now
  {
    e.(title := OrElse(req.title, e.title), time := OrElse(req.time, e.time),
       date := OrElse(req.date, e.date), eventType := OrElse(req.eventType, e.eventType),
       updatedAt := now)
  }

  /** Sending the same update twice has the effect of sending it once. */
  lemma MergeIdempotent(e: Event, req: UpdateRequest, now: string)
    ensures Merge(Merge(e, req, now), req, now) == Merge(e, req, now)
  {
  }

  /** A PUT carrying only `{id, time}` keeps title, date and type, and a field sent
      as the empty string cannot be told from one left out. */
  lemma MergeOnlyTime(e: Event, id: Js.Value, time: string, now: string)
    ensures var r := Merge(e, UpdateRequest(id, "", time, "", ""), now);
            r.title == e.title && r.date == e.date && r.eventType == e.eventType &&
            (time != "" ==> r.time == time) && (time == "" ==> r.time == e.time)
  {
  }

  // ---------------------------------------------------------------- the id invariant

  /** Appending an event numbered `nextId` and counting up keeps the ids well formed,
      and the new id differs from every stored one. */
  lemma AppendKeepsWellFormed(db: Database, e: Event)
    requires WellFormed(db) && e.id == db.nextId
    ensures WellFormed(Database(db.events + [e], db.nextId + 1))
    ensures forall i :: 0 <= i < |db.events| ==> db.events[i].id != e.id
  {
  }

  /** Removing one event keeps the ids well formed, and no event with the
      removed id is left. */
  lemma RemoveKeepsWellFormed(db: Database, k: nat)
    requires WellFormed(db) && k < |db.events|
    ensures WellFormed(Database(db.events[..k] + db.events[k + 1..], db.nextId))
    ensures FindIndex(db.events[..k] + db.events[k + 1..], Js.Num(db.events[k].id)) == -1
  {
    var rest := db.events[..k] + db.events[k + 1..];
    forall i | 0 <= i < |rest| ensures rest[i] == db.events[if i < k then i else i + 1] {
    }
    forall i, j | 0 <= i < j < |rest| ensures rest[i].id < rest[j].id {
      var i' := if i < k then i else i + 1;
      var j' := if j < k then j else j + 1;
      assert rest[i] == db.events[i'] && rest[j] == db.events[j'];
    }
  }

  /** The ids left after removing an event were all there before. */
  lemma RemoveKeepsIds(events: seq<Event>, k: nat)
    requires k < |events|
    ensures Ids(events[..k] + events[k + 1..]) <= Ids(events)
  {
    var rest := events[..k] + events[k + 1..];
    forall x | x in Ids(rest) ensures x in Ids(events) {
      var i :| 0 <= i < |rest| && rest[i].id == x;
      if i < k { assert rest[i] == events[i]; } else { assert rest[i] == events[i + 1]; }
    }
  }

  /** Replacing an event by one with the same id keeps the ids well formed. */
  lemma ReplaceKeepsWellFormed(db: Database, k: nat, e: Event)
    requires WellFormed(db) && k < |db.events| && e.id == db.events[k].id
    ensures WellFormed(Database(db.events[k := e], db.nextId))
  {
  }

  /** In a well-formed store the first event with an id is the only one with it. */
  lemma FirstMatchIsOnly(db: Database, id: Js.Value)
    requires WellFormed(db) && FindIndex(db.events, id) >= 0
    ensures forall j :: 0 <= j < |db.events| && Js.Num(db.events[j].id) == id ==> j == FindIndex(db.events, id)
  {
  }

  /** The ids of the events in a list. */
  ghost function Ids(events: seq<Event>): set<int> {
    set i | 0 <= i < |events| :: events[i].id
  }

  class Store {
    /** The backing file. */
    var document: Document
    /** Every id this store has handed out, or found in the file it started from. */
    ghost var issued: set<int>

    /** The store's invariant: the stored ids are well formed, every id that was
        ever handed out is below `nextId`, and the stored ids are among them. */
    ghost predicate Valid()
      reads this
    {
      && (document.Stored? ==> WellFormed(document.db) && Ids(document.db.events) <= issued &&
                               forall k :: k in issued ==> k < document.db.nextId)
      && (!document.Stored? ==> issued == {})
    }

    constructor (doc: Document)
      ensures document == doc
      ensures doc.Stored? && WellFormed(doc.db) ==> Valid()
      ensures !doc.Stored? ==> Valid()
    {
      document := doc;
      issued := if doc.Stored? then Ids(doc.db.events) else {};
    }

    /** The abstract `readDatabase`. */
    method Load() returns (db: Database)
      ensures db == ReadDatabase(document)
    {
      match document
      case Stored(d) => db := d;
      case _ => db := Database([], 1);
    }

    /** The abstract `writeDatabase`: `diskOk` says whether the write succeeds; a
        failed write leaves the file as it was. */
    method Save(db: Database, diskOk: bool) returns (ok: bool)
      modifies this`document
      ensures ok == diskOk
      ensures document == if ok then Stored(db) else old(document)
    {
      ok := diskOk;
      if ok {
        document := Stored(db);
      }
    }

    /** GET: the stored events. Reading never fails, so the 500 branch of the handler
        cannot be taken. */
    method Get() returns (r: Response)
      ensures r == Response(200, EventList(ReadDatabase(document).events))
    {
      var db := Load();
      r := Response(200, EventList(db.events));
    }

    /** POST: validate, number the new event with `nextId`, append it, count up, save. */
    method Post(req: CreateRequest, now: string, diskOk: bool) returns (r: Response)
      modifies this
      ensures var db := ReadDatabase(old(document));
              var e := Event(db.nextId, req.title, req.time, req.date, req.eventType, now, now);
              if req.title == "" || req.time == "" || req.date == "" || req.eventType == "" then
                r == Response(400, Failure("Missing required fields")) && document == old(document)
              else if !diskOk then
                r == Response(500, Failure("Failed to create event")) && document == old(document)
              else
                r == Response(201, OneEvent(e)) && document == Stored(Database(db.events + [e], db.nextId + 1))
      ensures old(Valid()) ==> Valid()
      ensures old(Valid()) && r.status == 201 ==> r.body.event.id !in old(issued) && issued == old(issued) + {r.body.event.id}
      ensures r.status != 201 ==> issued == old(issued)
    {
      if req.title == "" || req.time == "" || req.date == "" || req.eventType == "" {
        return Response(400, Failure("Missing required fields"));
      }
      var db := Load();
      var newEvent := Event(db.nextId, req.title, req.time, req.date, req.eventType, now, now);
      var events := db.events + [newEvent];
      var nextId := db.nextId + 1;
      ghost var wasValid := Valid();
      if wasValid && document.Stored? {
        AppendKeepsWellFormed(db, newEvent);
      }
      var ok := Save(Database(events, nextId), diskOk);
      if !ok {
        return Response(500, Failure("Failed to create event"));
      }
      issued := issued + {newEvent.id};
      assert Ids(events) == Ids(db.events) + {newEvent.id} by {
        forall k | k in Ids(events) ensures k in Ids(db.events) + {newEvent.id} {
          var i :| 0 <= i < |events| && events[i].id == k;
          if i < |db.events| { assert db.events[i] == events[i]; }
        }
        forall k | k in Ids(db.events) ensures k in Ids(events) {
          var i :| 0 <= i < |db.events| && db.events[i].id == k;
          assert events[i] == db.events[i];
        }
        assert events[|db.events|] == newEvent;
      }
      r := Response(201, OneEvent(newEvent));
    }

    /** PUT: a falsy id is refused, an unknown id is not found, otherwise the first
        event with that id is merged with the request and saved. */
    method Put(req: UpdateRequest, now: string, diskOk: bool) returns (r: Response)
      modifies this`document
      ensures var db := ReadDatabase(old(document));
              var k := FindIndex(db.events, req.id);
              if !Js.Truthy(req.id) then
                r == Response(400, Failure("Event ID is required")) && document == old(document)
              else if k == -1 then
                r == Response(404, Failure("Event not found")) && document == old(document)
              else if !diskOk then
                r == Response(500, Failure("Failed to update event")) && document == old(document)
              else
                var e := Merge(db.events[k], req, now);
                r == Response(200, OneEvent(e)) && document == Stored(Database(db.events[k := e], db.nextId))
      ensures old(Valid()) ==> Valid()
    {
      if !Js.Truthy(req.id) {
        return Response(400, Failure("Event ID is required"));
      }
      var db := Load();
      var k := FindIndex(db.events, req.id);
      if k == -1 {
        return Response(404, Failure("Event not found"));
      }
      var updated := Merge(db.events[k], req, now);
      var events := db.events[k := updated];
      ghost var wasValid := Valid();
      if wasValid && document.Stored? {
        ReplaceKeepsWellFormed(db, k, updated);
        assert Ids(events) <= Ids(db.events) by {
          forall x | x in Ids(events) ensures x in Ids(db.events) {
            var i :| 0 <= i < |events| && events[i].id == x;
            assert db.events[i].id == x;
          }
        }
      }
      var ok := Save(Database(events, db.nextId), diskOk);
      if !ok {
        return Response(500, Failure("Failed to update event"));
      }
      r := Response(200, OneEvent(updated));
    }

    /** DELETE: the `id` query parameter is read with `parseInt`; NaN and 0 are
        refused, an unknown id is not found, otherwise the first event with that id
        is spliced out, saved, and returned. */
    method Delete(query: Option<string>, diskOk: bool) returns (r: Response)
      modifies this`document
      ensures var text := if query.Some? then query.value else "";
              var parsed := ParseInt(text);
              var db := ReadDatabase(old(document));
              if parsed == NaN || parsed == Int(0) then
                r == Response(400, Failure("Event ID is required")) && document == old(document)
              else
                var k := FindIndex(db.events, Js.Num(parsed.value));
                if k == -1 then
                  r == Response(404, Failure("Event not found")) && document == old(document)
                else if !diskOk then
                  r == Response(500, Failure("Failed to delete event")) && document == old(document)
                else
                  r == Response(200, OneEvent(db.events[k])) &&
                  document == Stored(Database(db.events[..k] + db.events[k + 1..], db.nextId))
      ensures old(Valid()) ==> Valid()
      ensures old(Valid()) && r.status == 200 ==>
                FindIndex(ReadDatabase(document).events, Js.Num(r.body.event.id)) == -1
    {
      var text := if query.Some? then query.value else "";
      var id := ParseInt(text);
      if id == NaN || id == Int(0) {
        return Response(400, Failure("Event ID is required"));
      }
      var db := Load();
      var k := FindIndex(db.events, Js.Num(id.value));
      if k == -1 {
        return Response(404, Failure("Event not found"));
      }
      var deleted := db.events[k];
      var events := db.events[..k] + db.events[k + 1..];
      ghost var wasValid := Valid();
      if wasValid && document.Stored? {
        RemoveKeepsWellFormed(db, k);
        RemoveKeepsIds(db.events, k);
      }
      var ok := Save(Database(events, db.nextId), diskOk);
      if !ok {
        return Response(500, Failure("Failed to delete event"));
      }
      r := Response(200, OneEvent(deleted));
    }
  }
}
