/** The booking API of backend/server.js: admission of `POST /api/booking`,
    the insert into the bookings table, and the two listings `GET /api/rooms`
    and `GET /api/bookings`. The MySQL database is an abstract Store object;
    whether a query fails, and the database clock, are parameters. */
module Server {
  import opened Js
  import SqlOrder

  /** A parsed JSON request body; a key that is absent reads as `undefined`. */
  type Body = map<string, JsValue>

  function Field(body: Body, name: string): (v: JsValue)
    ensures name !in body ==> v == Undefined
    ensures name in body ==> v == body[name]
  {
    if name in body then body[name] else Undefined
  }

  /** A row of the `rooms` table, as `SELECT *` returns it. */
  datatype Room = Room(slug: string, name: string, description: string, price_nzd: int, image: Option<string>)

  /** The six values handed to the parameterised INSERT, in column order. */
  datatype InsertArgs = InsertArgs(
    full_name: JsValue, email: JsValue, room_slug: JsValue,
    checkin: JsValue, checkout: JsValue, notes: JsValue)

  /** A row of the `bookings` table: the inserted values plus the id and
      `created_at` that the database assigns. */
  datatype BookingRow = BookingRow(id: nat, args: InsertArgs, created_at: int)

  /** A row as `GET /api/bookings` projects it: `notes` is not selected. */
  datatype BookingSummary = BookingSummary(
    id: nat, full_name: JsValue, email: JsValue, room_slug: JsValue,
    checkin: JsValue, checkout: JsValue, created_at: int)

  datatype Reply =
    | Created(message: string, booking_id: nat)
    | Error(error: string, message: string)
    | RoomList(count: nat, rooms: seq<Room>)
    | BookingList(count: nat, bookings: seq<BookingSummary>)

  datatype Response = Response(status: int, reply: Reply)

  const BookingsLimit: nat := 100
  const MissingFieldsMessage := "Required fields are missing."
  const CreatedMessage := "Booking created successfully."

  // ---------------------------------------------------------------------------
  // Admission of POST /api/booking

  /** The presence check: each of the five required properties is truthy.
      Nothing is trimmed and the dates are not compared. */
  predicate HasRequiredFields(body: Body) {
    && Truthy(Field(body, "full_name"))
    && Truthy(Field(body, "email"))
    && Truthy(Field(body, "room_slug"))
    && Truthy(Field(body, "checkin"))
    && Truthy(Field(body, "checkout"))
  }

  /** The values the handler would insert, or None when it rejects the body
      with MISSING_FIELDS. Accepted values are passed through unchanged;
      `notes` becomes null exactly when it is falsy. */
  function InsertArguments(body: Body): (r: Option<InsertArgs>)
    ensures r.Some? <==> HasRequiredFields(body)
    ensures r.Some? ==>
      && r.value.full_name == Field(body, "full_name")
      && r.value.email == Field(body, "email")
      && r.value.room_slug == Field(body, "room_slug")
      && r.value.checkin == Field(body, "checkin")
      && r.value.checkout == Field(body, "checkout")
      && (r.value.notes == Null <==> !Truthy(Field(body, "notes")))
      && (r.value.notes != Null ==> r.value.notes == Field(body, "notes"))
  {
    if !HasRequiredFields(body) then None
    else
      Some(InsertArgs(
        Field(body, "full_name"), Field(body, "email"), Field(body, "room_slug"),
        Field(body, "checkin"), Field(body, "checkout"), OrNull(Field(body, "notes"))))
  }

  /** Admission depends on the five required properties alone: two bodies that
      agree on their truthiness are both admitted or both rejected, whatever
      their dates or notes say. */
  lemma AdmissionIgnoresContent(a: Body, b: Body)
    requires forall f :: f in ["full_name", "email", "room_slug", "checkin", "checkout"] ==>
      Truthy(Field(a, f)) == Truthy(Field(b, f))
    ensures InsertArguments(a).Some? <==> InsertArguments(b).Some?
  {
    assert "full_name" in ["full_name", "email", "room_slug", "checkin", "checkout"];
    assert "email" in ["full_name", "email", "room_slug", "checkin", "checkout"];
    assert "room_slug" in ["full_name", "email", "room_slug", "checkin", "checkout"];
    assert "checkin" in ["full_name", "email", "room_slug", "checkin", "checkout"];
    assert "checkout" in ["full_name", "email", "room_slug", "checkin", "checkout"];
  }

  /** The server accepts a check-out date before the check-in date, and a
      guest name made of white space only. */
  lemma AdmitsInvertedDatesAndBlankName()
    ensures InsertArguments(map[
      "full_name" := Str(" "), "email" := Str("jane@x.com"), "room_slug" := Str("ocean-view"),
      "checkin" := Str("2025-06-05"), "checkout" := Str("2025-06-01")]).Some?
  {
  }

  // ---------------------------------------------------------------------------
  // The listings' queries

  /** How many rows `LIMIT 100` leaves of `n`. */
  function ListedCount(n: nat): nat {
    if n < BookingsLimit then n else BookingsLimit
  }

  function PriceKey(r: Room): int { r.price_nzd }

  function NewestFirstKey(b: BookingRow): int { -b.created_at }

  function Project(b: BookingRow): BookingSummary {
    BookingSummary(b.id, b.args.full_name, b.args.email, b.args.room_slug,
                   b.args.checkin, b.args.checkout, b.created_at)
  }

  /** The projections of all stored rows. */
  function Summaries(rows: seq<BookingRow>): set<BookingSummary> {
    set b | b in rows :: Project(b)
  }

  /** `SELECT * FROM rooms ORDER BY price_nzd ASC` */
  function RoomsByPrice(rooms: seq<Room>): seq<Room> {
    SqlOrder.OrderBy(rooms, PriceKey)
  }

  /** `SELECT id, ..., created_at FROM bookings ORDER BY created_at DESC LIMIT 100` */
  function RecentBookings(rows: seq<BookingRow>): seq<BookingSummary> {
    SqlOrder.Select(SqlOrder.Limit(SqlOrder.OrderBy(rows, NewestFirstKey), BookingsLimit), Project)
  }

  /** The rooms listing returns every room exactly once, cheapest first. */
  lemma RoomsByPriceSpec(rooms: seq<Room>)
    ensures |RoomsByPrice(rooms)| == |rooms|
    ensures multiset(RoomsByPrice(rooms)) == multiset(rooms)
    ensures forall i, j :: 0 <= i < j < |rooms| ==>
      RoomsByPrice(rooms)[i].price_nzd <= RoomsByPrice(rooms)[j].price_nzd
  {
    var r := RoomsByPrice(rooms);
    assert |multiset(r)| == |multiset(rooms)|;
    forall i, j | 0 <= i < j < |rooms| ensures r[i].price_nzd <= r[j].price_nzd {
      assert PriceKey(r[i]) <= PriceKey(r[j]);
    }
  }

  /** The listed rows are stored rows, none listed more often than stored,
      and all of them when there are at most 100. */
  lemma RecentBookingsAreStoredRows(rows: seq<BookingRow>)
    ensures multiset(RecentBookings(rows)) <= multiset(SqlOrder.Select(rows, Project))
    ensures |rows| <= BookingsLimit ==>
      multiset(RecentBookings(rows)) == multiset(SqlOrder.Select(rows, Project))
  {
    var sorted := SqlOrder.OrderBy(rows, NewestFirstKey);
    var newest := SqlOrder.Limit(sorted, BookingsLimit);
    SqlOrder.SelectPrefix(newest, sorted, Project);
    SqlOrder.SelectPermutation(sorted, rows, Project);
    if |rows| <= BookingsLimit {
      assert |sorted| == |rows| by {
        assert |multiset(sorted)| == |multiset(rows)|;
      }
      assert newest == sorted;
    }
  }

  /** The listed rows come newest first, and a stored row that is left out
      is no newer than any row that is listed. */
  lemma RecentBookingsNewestFirst(rows: seq<BookingRow>)
    ensures forall i, j :: 0 <= i < j < |RecentBookings(rows)| ==>
      RecentBookings(rows)[i].created_at >= RecentBookings(rows)[j].created_at
    ensures forall b :: b in rows ==>
      Project(b) in RecentBookings(rows) ||
      forall i :: 0 <= i < |RecentBookings(rows)| ==> b.created_at <= RecentBookings(rows)[i].created_at
  {
    var sorted := SqlOrder.OrderBy(rows, NewestFirstKey);
    var r := RecentBookings(rows);
    assert forall i :: 0 <= i < |r| ==> r[i] == Project(sorted[i]);
    forall i, j | 0 <= i < j < |r| ensures r[i].created_at >= r[j].created_at {
      assert NewestFirstKey(sorted[i]) <= NewestFirstKey(sorted[j]);
    }
    forall b | b in rows
      ensures Project(b) in r || forall i :: 0 <= i < |r| ==> b.created_at <= r[i].created_at
    {
      assert b in multiset(sorted);
      var k :| 0 <= k < |sorted| && sorted[k] == b;
      if k < |r| {
        assert r[k] == Project(b);
      } else {
        forall i | 0 <= i < |r| ensures b.created_at <= r[i].created_at {
          assert NewestFirstKey(sorted[i]) <= NewestFirstKey(sorted[k]);
        }
      }
    }
  }

  /** The bookings listing: at most 100 rows, newest first, each the
      projection of a stored row and no stored row listed twice, all of them
      when there are at most 100, and every stored row that is left out is no
      newer than any row that is listed. */
  lemma RecentBookingsSpec(rows: seq<BookingRow>)
    ensures |RecentBookings(rows)| == ListedCount(|rows|)
    ensures multiset(RecentBookings(rows)) <= multiset(SqlOrder.Select(rows, Project))
    ensures |rows| <= BookingsLimit ==>
      multiset(RecentBookings(rows)) == multiset(SqlOrder.Select(rows, Project))
    ensures forall i, j :: 0 <= i < j < |RecentBookings(rows)| ==>
      RecentBookings(rows)[i].created_at >= RecentBookings(rows)[j].created_at
    ensures forall s :: s in RecentBookings(rows) ==> s in Summaries(rows)
    ensures forall b :: b in rows ==>
      Project(b) in RecentBookings(rows) ||
      forall i :: 0 <= i < |RecentBookings(rows)| ==> b.created_at <= RecentBookings(rows)[i].created_at
  {
    var sorted := SqlOrder.OrderBy(rows, NewestFirstKey);
    var r := RecentBookings(rows);
    assert |multiset(sorted)| == |multiset(rows)|;
    RecentBookingsAreStoredRows(rows);
    RecentBookingsNewestFirst(rows);
    forall s | s in r ensures s in Summaries(rows) {
      var i :| 0 <= i < |r| && r[i] == s;
      assert r[i] == Project(sorted[i]);
      assert sorted[i] in multiset(sorted);
    }
  }

  // ---------------------------------------------------------------------------
  // The database

  /** The two tables the API uses. Bookings are only ever appended; the
      auto-increment counter `nextId` is above every id handed out so far. */
  class Store {
    var bookings: seq<BookingRow>
    var nextId: nat
    var rooms: seq<Room>

    ghost predicate Valid()
      reads this
    {
      && 1 <= nextId
      && (forall i :: 0 <= i < |bookings| ==> 1 <= bookings[i].id < nextId)
      && (forall i, j :: 0 <= i < j < |bookings| ==> bookings[i].id < bookings[j].id)
    }

    /** A database whose rooms table holds the seed data and whose bookings
        table is empty. */
    constructor (seedRooms: seq<Room>)
      ensures Valid()
      ensures bookings == [] && nextId == 1 && rooms == seedRooms
    {
      bookings := [];
      nextId := 1;
      rooms := seedRooms;
    }

    /** The parameterised INSERT. When the database reports `fault` nothing
        changes; otherwise one row is appended with a fresh id, stamped with
        the database clock `now`, and that id is returned. */
    method Insert(args: InsertArgs, now: int, fault: Option<string>) returns (r: Result<nat, string>)
      requires Valid()
      modifies this`bookings, this`nextId
      ensures Valid()
      ensures fault.Some? ==> r == Failure(fault.value) && bookings == old(bookings) && nextId == old(nextId)
      ensures fault.None? ==>
        && r == Success(old(nextId))
        && bookings == old(bookings) + [BookingRow(old(nextId), args, now)]
        && nextId == old(nextId) + 1
      ensures r.Success? ==> forall i :: 0 <= i < |old(bookings)| ==> old(bookings)[i].id != r.value
    {
      if fault.Some? {
        r := Failure(fault.value);
      } else {
        r := Success(nextId);
        bookings := bookings + [BookingRow(nextId, args, now)];
        nextId := nextId + 1;
      }
    }

    /** The rooms query: on success every room exactly once, cheapest first. */
    method QueryRooms(fault: Option<string>) returns (r: Result<seq<Room>, string>)
      ensures fault.Some? ==> r == Failure(fault.value)
      ensures fault.None? ==> r.Success? && multiset(r.value) == multiset(rooms)
      ensures r.Success? ==> forall i, j :: 0 <= i < j < |r.value| ==> r.value[i].price_nzd <= r.value[j].price_nzd
    {
      if fault.Some? {
        r := Failure(fault.value);
      } else {
        RoomsByPriceSpec(rooms);
        r := Success(RoomsByPrice(rooms));
      }
    }

    /** The bookings query: on success at most 100 projected rows, newest
        first, no stored row twice, and all of them when there are at most 100. */
    method QueryBookings(fault: Option<string>) returns (r: Result<seq<BookingSummary>, string>)
      ensures fault.Some? ==> r == Failure(fault.value)
      ensures fault.None? ==> r.Success? && |r.value| == ListedCount(|bookings|)
      ensures r.Success? ==> multiset(r.value) <= multiset(SqlOrder.Select(bookings, Project))
      ensures r.Success? && |bookings| <= BookingsLimit ==>
        multiset(r.value) == multiset(SqlOrder.Select(bookings, Project))
      ensures r.Success? ==> forall i, j :: 0 <= i < j < |r.value| ==> r.value[i].created_at >= r.value[j].created_at
      ensures r.Success? ==> forall s :: s in r.value ==> s in Summaries(bookings)
      ensures r.Success? ==> forall b :: b in bookings ==>
        Project(b) in r.value || forall i :: 0 <= i < |r.value| ==> b.created_at <= r.value[i].created_at
    {
      if fault.Some? {
        r := Failure(fault.value);
      } else {
        RecentBookingsSpec(bookings);
        r := Success(RecentBookings(bookings));
      }
    }
  }

  // ---------------------------------------------------------------------------
  // The route handlers

  /** `GET /api/rooms`: 200 with the rooms and their count, or 500
      DB_QUERY_FAILED carrying the database's message. */
  method ListRooms(store: Store, fault: Option<string>) returns (resp: Response)
    ensures fault.Some? ==> resp == Response(500, Error("DB_QUERY_FAILED", fault.value))
    ensures fault.None? ==>
      && resp.status == 200 && resp.reply.RoomList?
      && resp.reply.count == |resp.reply.rooms| == |store.rooms|
      && multiset(resp.reply.rooms) == multiset(store.rooms)
      && forall i, j :: 0 <= i < j < |resp.reply.rooms| ==>
           resp.reply.rooms[i].price_nzd <= resp.reply.rooms[j].price_nzd
  {
    var rows := store.QueryRooms(fault);
    match rows
    case Failure(message) =>
      resp := Response(500, Error("DB_QUERY_FAILED", message));
    case Success(rooms) =>
      assert |multiset(rooms)| == |multiset(store.rooms)|;
      resp := Response(200, RoomList(|rooms|, rooms));
  }

  /** `GET /api/bookings`: 200 with at most 100 rows newest first and their
      count, or 500 DB_QUERY_FAILED carrying the database's message. */
  method ListBookings(store: Store, fault: Option<string>) returns (resp: Response)
    ensures fault.Some? ==> resp == Response(500, Error("DB_QUERY_FAILED", fault.value))
    ensures fault.None? ==>
      && resp.status == 200 && resp.reply.BookingList?
      && resp.reply.count == |resp.reply.bookings|
      && resp.reply.count == ListedCount(|store.bookings|)
      && (forall i, j :: 0 <= i < j < |resp.reply.bookings| ==>
            resp.reply.bookings[i].created_at >= resp.reply.bookings[j].created_at)
      && (forall s :: s in resp.reply.bookings ==> s in Summaries(store.bookings))
      && multiset(resp.reply.bookings) <= multiset(SqlOrder.Select(store.bookings, Project))
      && (|store.bookings| <= BookingsLimit ==>
            multiset(resp.reply.bookings) == multiset(SqlOrder.Select(store.bookings, Project)))
      && (forall b :: b in store.bookings ==>
            Project(b) in resp.reply.bookings ||
            forall i :: 0 <= i < |resp.reply.bookings| ==> b.created_at <= resp.reply.bookings[i].created_at)
  {
    var rows := store.QueryBookings(fault);
    match rows
    case Failure(message) =>
      resp := Response(500, Error("DB_QUERY_FAILED", message));
    case Success(bookings) =>
      resp := Response(200, BookingList(|bookings|, bookings));
  }

  /** `POST /api/booking`: 400 MISSING_FIELDS without touching the store when
      a required property is falsy; otherwise the insert, answered with 201
      and the new id, or 500 DB_INSERT_FAILED carrying the database's message
      and leaving the store as it was. */
  method CreateBooking(store: Store, body: Body, now: int, fault: Option<string>) returns (resp: Response)
    requires store.Valid()
    modifies store
    ensures store.Valid() && store.rooms == old(store.rooms)
    ensures !HasRequiredFields(body) ==>
      && resp == Response(400, Error("MISSING_FIELDS", MissingFieldsMessage))
      && store.bookings == old(store.bookings) && store.nextId == old(store.nextId)
    ensures HasRequiredFields(body) && fault.Some? ==>
      && resp == Response(500, Error("DB_INSERT_FAILED", fault.value))
      && store.bookings == old(store.bookings) && store.nextId == old(store.nextId)
    ensures HasRequiredFields(body) && fault.None? ==>
      && resp == Response(201, Created(CreatedMessage, old(store.nextId)))
      && store.bookings == old(store.bookings) + [BookingRow(old(store.nextId), InsertArguments(body).value, now)]
    ensures resp.status == 201 ==>
      forall i :: 0 <= i < |old(store.bookings)| ==> old(store.bookings)[i].id != resp.reply.booking_id
  {
    var args := InsertArguments(body);
    if args.None? {
      return Response(400, Error("MISSING_FIELDS", MissingFieldsMessage));
    }
    var inserted := store.Insert(args.value, now, fault);
    match inserted
    case Failure(message) =>
      resp := Response(500, Error("DB_INSERT_FAILED", message));
    case Success(id) =>
      resp := Response(201, Created(CreatedMessage, id));
  }
}
