# Hotel booking: a verified model of the reservation rules

This project models the decision logic of the Aurora Cove Hotel booking app in
Dafny. The app has three parts:

- **The booking API** (`backend/server.js`, module `Server` in `server.dfy`).
  `POST /api/booking` admits a request body when its five required
  properties `full_name`, `email`, `room_slug`, `checkin` and `checkout` are
  all truthy. It then inserts the six values, with `notes || null`. The
  replies are 201 with the new id, 400 `MISSING_FIELDS`, or 500
  `DB_INSERT_FAILED`. `GET /api/rooms` lists the rooms cheapest first.
  `GET /api/bookings` lists at most 100 bookings, newest first, without their
  notes. The MySQL database is a `Store` class. It holds a `seq` of booking
  rows, the auto-increment counter and the rooms table. The database clock
  (`now`) and a failing query (`fault`) are parameters. The `ORDER BY` and
  `LIMIT` clauses are a reference sort in `SqlOrder` (`sql_order.dfy`), whose
  contract is what the SQL promises: sorted by the key, and the same rows.
- **The booking form** (`frontend/booking.js`, module `BookingForm` in
  `booking_form.dfy`). The form trims the name, e-mail and notes, checks that
  the required fields are present, reads both dates as `YYYY-MM-DD`, and
  requires check-in to be strictly earlier than check-out. Then it builds the
  JSON payload. This is the only place in the app where dates are compared.
  A date is a `(year, month, day)` triple compared lexicographically.
  `EarlierIsChronological` proves that this order is the order of the days
  the dates denote.
- **The admin page** (`frontend/admin.js`, module `AdminView` in
  `admin_view.dfy`). It has a case-insensitive search on name or e-mail, with
  an optional exact room filter. It renders the table and exports the rows on
  screen as CSV.

`Js` (`js_text.dfy`) gives the JavaScript semantics these parts rely on:
truthiness, `trim`, ASCII `toLowerCase`, `includes`, `filter` and `join`.

The server itself neither trims its input nor compares dates; only the
browser form does. Any body whose
five required properties are truthy is inserted, even one whose check-out
comes before its check-in (`Server.AdmitsInvertedDatesAndBlankName`). Trimming
and date order are enforced only by the browser form. Every payload the form
sends passes the server's check (`BookingForm.SentPassesServerCheck`). There
is no past check-in rule and no overlap check anywhere in the code, so
neither is modelled.

The bookings listing does not select `notes`. So the admin table always
shows the dash placeholder in its Notes column for the bookings it loads, and
so does the CSV.

## Model

| member | source | states |
|---|---|---|
| `Js.OrNull` | backend/server.js:68 | `v \|\| null` keeps a truthy `v` and turns every falsy `v` into null |
| `Js.TrimStart` | frontend/booking.js:36-41 | the result is the longest suffix not starting with white space; everything dropped is white space |
| `Js.TrimEnd` | frontend/booking.js:36-41 | the result is the longest prefix not ending with white space; everything dropped is white space |
| `Js.TrimSlice` | frontend/admin.js:105 | `trim` gives a contiguous slice with no white space at either end; it is empty exactly when the input is all white space |
| `Js.TrimKeepsCharacters` | frontend/admin.js:105 | trimming never introduces a character |
| `Js.ToLower` | frontend/admin.js:73-78 | no upper-case ASCII letter remains; upper-case letters move by 32; every other character stays in place |
| `Js.Includes` | frontend/admin.js:77-78 | `s.includes(q)` holds exactly when `q` occurs in `s` at some position |
| `Js.FilterMembers` | frontend/admin.js:75 | `filter` keeps exactly the elements that satisfy the predicate |
| `Js.FilterCount` | frontend/admin.js:75 | `filter` keeps every occurrence of a satisfying element and no occurrence of any other |
| `Js.FilterIsSubsequence` | frontend/admin.js:75 | `filter` keeps the order: the result is a subsequence of the input |
| `Js.FilterAll` | frontend/admin.js:75 | when every element satisfies the predicate, `filter` returns the input |
| `Js.SplitJoin` | frontend/admin.js:108 | splitting a `join` at its separator gives the items back when no item contains the separator |
| `Js.JoinWithout` | frontend/admin.js:106-108 | a join contains a character only if an item or the separator does |
| `Js.DecimalString` | frontend/admin.js:53 | `${id}` is the shortest decimal notation of the id, made of digits, with value `id` |
| `SqlOrder.OrderBy` | backend/server.js:42 | `ORDER BY`: the result is sorted by the key and is a permutation of the rows |
| `SqlOrder.Limit` | backend/server.js:91 | `LIMIT n`: the first `n` rows, or all of them when there are fewer |
| `SqlOrder.SelectPermutation` | backend/server.js:88-90 | selecting from the same rows in another order gives the same selected rows |
| `SqlOrder.SelectPrefix` | backend/server.js:88-91 | selecting from a prefix of the rows gives a sub-multiset of the selected rows |
| `Server.InsertArguments` | backend/server.js:56-69 | the body is admitted exactly when the five required properties are truthy; the admitted values pass unchanged; `notes` becomes null exactly when it is falsy |
| `Server.AdmissionIgnoresContent` | backend/server.js:58 | admission depends only on the truthiness of the five required properties, not on their content or the dates |
| `Server.AdmitsInvertedDatesAndBlankName` | backend/server.js:56-69 | a body whose check-out precedes its check-in and whose name is a single space is admitted |
| `Server.RoomsByPriceSpec` | backend/server.js:41-44 | the rooms query returns every room exactly once, in ascending price |
| `Server.RecentBookingsAreStoredRows` | backend/server.js:87-92 | the listed rows are projections of stored rows, none listed more often than it is stored, and all of them when at most 100 are stored |
| `Server.RecentBookingsNewestFirst` | backend/server.js:90-91 | the listed rows come newest first, and a stored row left out is no newer than any row listed |
| `Server.RecentBookingsSpec` | backend/server.js:87-93 | the bookings query returns min(n, 100) rows, newest first; each is the projection of a stored row without notes; no stored row is listed more often than it is stored, every stored row is listed when there are at most 100, and a stored row left out is no newer than any row listed |
| `Server.Store.Insert` | backend/server.js:65-69 | a failure leaves the table unchanged and carries the message; otherwise exactly one row is appended under a previously unused id, which is returned, and existing rows are unchanged |
| `Server.Store.QueryRooms` | backend/server.js:41-43 | a failed query yields its message; a successful one yields the rooms as a permutation in ascending price |
| `Server.Store.QueryBookings` | backend/server.js:87-92 | a failed query yields its message; a successful one yields min(n, 100) projected rows, newest first, none more often than stored, all of them when at most 100 are stored, with the top-100 property |
| `Server.ListRooms` | backend/server.js:39-51 | 200 with `count` equal to the number of rooms and the rooms in ascending price, or 500 `DB_QUERY_FAILED` with the message |
| `Server.ListBookings` | backend/server.js:85-100 | 200 with `count` equal to the length of the list, min(n, 100), newest first, each a stored row's projection and none more often than stored, every stored row when at most 100 are stored, and no left-out row newer than a listed one; or 500 `DB_QUERY_FAILED` with the message |
| `Server.CreateBooking` | backend/server.js:54-82 | 400 `MISSING_FIELDS` with the store unchanged when a required property is falsy; 500 `DB_INSERT_FAILED` with the message and the store unchanged on a failed insert; otherwise 201 with the new id and the row appended |
| `BookingForm.EarlierIsChronological` | frontend/booking.js:50 | for calendar dates, the lexicographic order is the order of their day numbers, and equal dates have equal day numbers |
| `BookingForm.ParseFormatted` | frontend/booking.js:28-31 | every calendar date is read back from its `YYYY-MM-DD` text |
| `BookingForm.FormattedParse` | frontend/booking.js:28-31 | a string that parses is the `YYYY-MM-DD` text of the date it names |
| `BookingForm.ParseDate` | frontend/booking.js:28-31 | `parseDate` gives null exactly for the empty value; a valid result is the date the text names; otherwise it is an Invalid Date |
| `BookingForm.ParseDateOfFormatted` | frontend/booking.js:28-31 | `parseDate` of a date's own text is that date |
| `BookingForm.DatesInOrderMeaning` | frontend/booking.js:48-50 | the date check passes exactly when both values name calendar dates and check-in's day number is smaller |
| `BookingForm.NotesOrNull` | frontend/booking.js:41 | the notes sent are null when the notes field is missing or blank after trimming, and the trimmed notes otherwise |
| `BookingForm.Submit` | frontend/booking.js:36-71 | the missing-fields message exactly when a trimmed name or e-mail, the room or a date is empty; otherwise the date message exactly when the dates are not in strict order; otherwise the payload is sent, carrying the trimmed name and e-mail, the untrimmed room and dates, and notes or null |
| `BookingForm.SentPayloadIsWellFormed` | frontend/booking.js:36-53 | a sent payload has two calendar dates with check-in strictly earlier, and a non-empty name and e-mail with no white space at either end |
| `BookingForm.EqualDatesRejected` | frontend/booking.js:48-52 | equal dates are refused with "Check-out must be after check-in." |
| `BookingForm.UnparseableDateRejected` | frontend/booking.js:48-52 | a date that names no calendar day is refused with the date message |
| `BookingForm.SentPassesServerCheck` | frontend/booking.js:43-71 | every payload the form sends passes the server's presence check, and the server inserts exactly its trimmed name and e-mail, room, dates, and notes or null |
| `AdminView.FilterKeepsExactlyMatches` | frontend/admin.js:72-81 | the filtered list holds exactly the loaded bookings whose lower-cased name or e-mail contains the lower-cased query and whose room equals a selected room, each as often as it was loaded; it is a subsequence of the loaded list |
| `AdminView.EmptyFilterKeepsAll` | frontend/admin.js:73-79 | an empty query with no room selected returns every booking |
| `AdminView.FilterIdempotent` | frontend/admin.js:75-81 | filtering the filtered list again with the same query and room changes nothing |
| `AdminView.RenderTable` | frontend/admin.js:27-66 | the empty-filter message exactly for an empty list; otherwise a table with one row per booking in order, eight cells in column order, the dash placeholder in the notes cell exactly when the notes are falsy, and the localised creation time last |
| `AdminView.EscapeQuotes` | frontend/admin.js:105 | doubling quotes introduces no other character |
| `AdminView.UnescapeEscaped` | frontend/admin.js:105 | collapsing doubled quotes undoes doubling them |
| `AdminView.CellRoundTrip` | frontend/admin.js:105 | reading an exported cell back gives its trimmed text |
| `AdminView.ExportCsv` | frontend/admin.js:86-108 | nothing when no booking is loaded; the "No data to export." alert when bookings are loaded but no row is shown; otherwise a download of the header line and one CSV line per shown row, joined by line breaks |
| `AdminView.ExportLines` | frontend/admin.js:93-108 | when no cell holds a line break, the CSV splits back into the unquoted header line and one line per shown row, in order: rows + 1 lines |
| `AdminView.ExportOfFilteredView` | frontend/admin.js:72-108 | exporting a filtered table gives nothing before loading, the alert when the filter matches nothing, and otherwise one line per matching booking after the header |

## Left out

- `frontend/rooms.js` is presentation only. It builds HTML, formats prices with `Intl.NumberFormat` and calls `fetch`.
- `backend/db.js` is not part of this model. It holds the connection pool configuration and a connection probe.
- Express setup, request logging, the CORS policy, the health check, the root message, `app.listen` and the `console.error` log line are transport and logging.
- The SQL engine is left out. Column typing and coercion, foreign-key and NOT NULL constraints, and the `created_at` default are not modelled. A stored row keeps the values as they were sent. Any database failure is the `fault` parameter, and the timestamp is the `now` parameter.
- `Server.Store.Insert`: hands out consecutive ids. MySQL promises only unique, increasing ids and may skip some after a failed insert.
- `SqlOrder.OrderBy`: orders rows with equal keys stably. MySQL leaves that order unspecified, so no contract about listings mentions it.
- A request whose body is not a parsed JSON object is not modelled. Depending on the Express version, destructuring an undefined body throws and is reported as 500 `DB_INSERT_FAILED`. NaN cannot occur in JSON.
- A JSON array or object in a field is admitted because it is truthy, and it is then handed to `pool.query`, whose driver expands it into SQL text; that usually makes the INSERT fail with 500 `DB_INSERT_FAILED`. The model does not decide this: with `fault` None it stores the value and answers 201, so for such bodies the model over-approximates and the outcome depends on the `fault` parameter.
- Concurrent requests and the pool's admission limits are not modelled.
- Dates: only four-digit `YYYY-MM-DD` years are read. A day outside its month, such as `2025-02-30`, is an Invalid Date here. Some JavaScript engines roll such a day over into the next month instead. Time zones and daylight saving are not modelled, because two local midnights are taken to compare like their dates.
- `toLowerCase` is modelled for ASCII letters only. Full Unicode case mapping is not.
- The `trim` white-space set is the fixed list of ECMAScript WhiteSpace and LineTerminator code points.
- DOM work is left out: status text and colour, the submit button's state, `form.reset`, `fetch`, `innerHTML`, `alert`, and the Blob/URL download. So are `loadBookings`, which assigns `allBookings` and renders the load-failure message, and the event bindings.
- `renderTable` interpolates field values into HTML without escaping. The model takes each cell's text to be the value itself, which holds only when the value contains no markup or character reference and no carriage return, which the HTML parser rewrites as a line feed (so a carriage return in a name would become a line break in the CSV). `toLocaleString("en-NZ")` of the creation time is the `localise` parameter.
