/** The administrators' page of frontend/admin.js: the search and room filter
    over the loaded bookings, the table it renders, and the CSV export of the
    rows on screen. */
module AdminView {
  import opened Js

  /** A booking as the page holds it in `allBookings`. `notes` None is a
      property that is absent or null; `created_at` is the database timestamp. */
  datatype Booking = Booking(
    id: nat, full_name: string, email: string, room_slug: string,
    checkin: string, checkout: string, notes: Option<string>, created_at: int)

  // ---------------------------------------------------------------------------
  // applyFilters

  /** The search box matches the name or the e-mail, ignoring ASCII case. */
  predicate MatchesText(b: Booking, query: string) {
    var q := ToLower(query);
    Includes(ToLower(b.full_name), q) || Includes(ToLower(b.email), q)
  }

  /** An empty room selection matches every room. */
  predicate MatchesRoom(b: Booking, room: string) {
    room != "" ==> b.room_slug == room
  }

  predicate Matches(b: Booking, query: string, room: string) {
    MatchesText(b, query) && MatchesRoom(b, room)
  }

  /** `allBookings.filter(...)` with the current query and room. */
  function ApplyFilters(all: seq<Booking>, query: string, room: string): (r: seq<Booking>)
    ensures |r| <= |all|
  {
    Filter(all, b => Matches(b, query, room))
  }

  /** The filtered list holds exactly the loaded bookings that match the
      query and the room, each as often as it was loaded, in their loaded
      order. */
  lemma FilterKeepsExactlyMatches(all: seq<Booking>, query: string, room: string)
    ensures forall b :: b in ApplyFilters(all, query, room) <==> b in all && Matches(b, query, room)
    ensures forall b :: multiset(ApplyFilters(all, query, room))[b] == (if Matches(b, query, room) then multiset(all)[b] else 0)
    ensures IsSubsequence(ApplyFilters(all, query, room), all)
  {
    var p := b => Matches(b, query, room);
    FilterMembers(all, p);
    forall b ensures multiset(Filter(all, p))[b] == if p(b) then multiset(all)[b] else 0 {
      FilterCount(all, p, b);
    }
    FilterIsSubsequence(all, p);
  }

  /** An empty query with no room selected shows every booking. */
  lemma EmptyFilterKeepsAll(all: seq<Booking>)
    ensures ApplyFilters(all, "", "") == all
  {
    assert ToLower("") == "";
    forall b | b in all ensures Matches(b, "", "") {
      assert "" <= ToLower(b.full_name);
    }
    FilterAll(all, b => Matches(b, "", ""));
  }

  /** Filtering the filtered list again with the same query and room changes
      nothing. */
  lemma FilterIdempotent(all: seq<Booking>, query: string, room: string)
    ensures ApplyFilters(ApplyFilters(all, query, room), query, room) == ApplyFilters(all, query, room)
  {
    var p := b => Matches(b, query, room);
    FilterMembers(all, p);
    FilterAll(Filter(all, p), p);
  }

  // ---------------------------------------------------------------------------
  // renderTable

  const NoMatchesMessage := "No bookings match your filter."
  /** The text of the placeholder span shown for a booking without notes. */
  const NotesPlaceholder := "–"

  /** What the container shows: the empty-filter message, or a table whose
      body rows are given by the text of their cells. */
  datatype TableView = NoMatches(message: string) | Table(caption: string, rows: seq<seq<string>>)

  function NotesCell(notes: Option<string>): string {
    if notes.Some? && notes.value != "" then notes.value else NotesPlaceholder
  }

  /** The eight cells of a body row, left to right. `localise` is
      `toLocaleString("en-NZ")` of the creation time. */
  function RowCells(b: Booking, localise: int -> string): seq<string> {
    [DecimalString(b.id), b.full_name, b.email, b.room_slug,
     b.checkin, b.checkout, NotesCell(b.notes), localise(b.created_at)]
  }

  /** `renderTable(rows)`: the message for an empty list, otherwise one body
      row per booking in order, eight cells each, the notes cell showing the
      placeholder exactly when the booking's notes are falsy. */
  function RenderTable(rows: seq<Booking>, localise: int -> string): (v: TableView)
    ensures v == NoMatches(NoMatchesMessage) <==> rows == []
    ensures v.Table? ==>
      && v.caption == "Bookings (" + DecimalString(|rows|) + ")"
      && |v.rows| == |rows|
      && forall i :: 0 <= i < |rows| ==>
           && |v.rows[i]| == 8
           && v.rows[i][0] == DecimalString(rows[i].id)
           && v.rows[i][1] == rows[i].full_name
           && v.rows[i][2] == rows[i].email
           && v.rows[i][3] == rows[i].room_slug
           && v.rows[i][4] == rows[i].checkin
           && v.rows[i][5] == rows[i].checkout
           && (rows[i].notes.None? || rows[i].notes.value == "" ==> v.rows[i][6] == NotesPlaceholder)
           && (rows[i].notes.Some? && rows[i].notes.value != "" ==> v.rows[i][6] == rows[i].notes.value)
           && v.rows[i][7] == localise(rows[i].created_at)
    ensures rows != [] ==> v.Table?
  {
    if rows == [] then NoMatches(NoMatchesMessage)
    else
      Table("Bookings (" + DecimalString(|rows|) + ")",
            seq(|rows|, i requires 0 <= i < |rows| => RowCells(rows[i], localise)))
  }

  /** The body rows the export finds in the container. */
  function VisibleRows(v: TableView): seq<seq<string>> {
    match v
    case NoMatches(_) => []
    case Table(_, rows) => rows
  }

  // ---------------------------------------------------------------------------
  // exportCSV

  const Headers: seq<string> := ["ID", "Guest", "E-mail", "Room", "Check-in", "Check-out", "Notes", "Created"]
  const NoDataMessage := "No data to export."

  datatype ExportOutcome = NotLoaded | Alert(message: string) | Download(csv: string)

  /** `replace(/"/g, '""')` */
  function EscapeQuotes(s: string): (r: string)
    ensures forall c :: c != '"' && c !in s ==> c !in r
  {
    if s == [] then []
    else (if s[0] == '"' then "\"\"" else [s[0]]) + EscapeQuotes(s[1..])
  }

  /** The inverse of EscapeQuotes: every `""` becomes `"`; a lone `"` is
      malformed. */
  function UnescapeQuotes(s: string): Option<string>
  {
    if s == [] then Some([])
    else if s[0] != '"' then
      match UnescapeQuotes(s[1..])
      case Some(t) => Some([s[0]] + t)
      case None => None
    else if |s| >= 2 && s[1] == '"' then
      match UnescapeQuotes(s[2..])
      case Some(t) => Some("\"" + t)
      case None => None
    else None
  }

  /** A cell's text: trimmed, quotes doubled, wrapped in quotes. */
  function CsvCell(text: string): string {
    "\"" + EscapeQuotes(Trim(text)) + "\""
  }

  /** Reads a quoted CSV field back. */
  function ParseCell(cell: string): Option<string> {
    if |cell| >= 2 && cell[0] == '"' && cell[|cell| - 1] == '"' then UnescapeQuotes(cell[1..|cell| - 1])
    else None
  }

  lemma {:induction false} UnescapeEscaped(s: string)
    ensures UnescapeQuotes(EscapeQuotes(s)) == Some(s)
  {
    if s != [] {
      UnescapeEscaped(s[1..]);
      var e := EscapeQuotes(s);
      if s[0] == '"' {
        assert e[2..] == EscapeQuotes(s[1..]);
      } else {
        assert e[1..] == EscapeQuotes(s[1..]);
      }
      assert s == [s[0]] + s[1..];
    }
  }

  /** Reading an exported cell back gives its trimmed text. */
  lemma CellRoundTrip(text: string)
    ensures ParseCell(CsvCell(text)) == Some(Trim(text))
  {
    var c := CsvCell(text);
    assert c[1..|c| - 1] == EscapeQuotes(Trim(text));
    UnescapeEscaped(Trim(text));
  }

  function CsvLine(cells: seq<string>): string {
    Join(seq(|cells|, i requires 0 <= i < |cells| => CsvCell(cells[i])), ",")
  }

  function CsvLines(rows: seq<seq<string>>): seq<string> {
    seq(|rows|, i requires 0 <= i < |rows| => CsvLine(rows[i]))
  }

  function HeaderLine(): string {
    Join(Headers, ",")
  }

  /** `exportCSV()` given the loaded bookings and the body rows on screen:
      nothing when no booking is loaded, the alert when no row is shown, and
      otherwise the header line followed by one line per shown row. */
  function ExportCsv(allBookings: seq<Booking>, visible: seq<seq<string>>): (r: ExportOutcome)
    ensures r == NotLoaded <==> allBookings == []
    ensures r == Alert(NoDataMessage) <==> allBookings != [] && visible == []
    ensures allBookings != [] && visible != [] ==>
      r == Download(Join([HeaderLine()] + CsvLines(visible), "\n"))
  {
    if allBookings == [] then NotLoaded
    else if visible == [] then Alert(NoDataMessage)
    else Download(Join([HeaderLine()] + CsvLines(visible), "\n"))
  }

  predicate NoNewlineInCells(rows: seq<seq<string>>) {
    forall i, k :: 0 <= i < |rows| && 0 <= k < |rows[i]| ==> '\n' !in rows[i][k]
  }

  lemma HeaderLineWithoutNewline()
    ensures '\n' !in HeaderLine()
  {
    forall k | 0 <= k < |Headers| ensures '\n' !in Headers[k] {
    }
    JoinWithout(Headers, ",", '\n');
  }

  lemma CsvLineWithoutNewline(cells: seq<string>)
    requires forall k :: 0 <= k < |cells| ==> '\n' !in cells[k]
    ensures '\n' !in CsvLine(cells)
  {
    var quoted := seq(|cells|, i requires 0 <= i < |cells| => CsvCell(cells[i]));
    forall k | 0 <= k < |cells| ensures '\n' !in quoted[k] {
      TrimKeepsCharacters(cells[k], '\n');
    }
    JoinWithout(quoted, ",", '\n');
  }

  lemma CsvLinesWithoutNewline(rows: seq<seq<string>>)
    requires NoNewlineInCells(rows)
    ensures forall k :: 0 <= k < |CsvLines(rows)| ==> '\n' !in CsvLines(rows)[k]
  {
    forall k | 0 <= k < |rows| ensures '\n' !in CsvLines(rows)[k] {
      CsvLineWithoutNewline(rows[k]);
    }
  }

  /** When no cell holds a line break, the export splits back into the header
      line and one line per shown row, in order: rows + 1 lines. */
  lemma ExportLines(allBookings: seq<Booking>, visible: seq<seq<string>>)
    requires allBookings != [] && visible != []
    requires NoNewlineInCells(visible)
    ensures ExportCsv(allBookings, visible).Download?
    ensures Split(ExportCsv(allBookings, visible).csv, '\n') == [HeaderLine()] + CsvLines(visible)
    ensures |Split(ExportCsv(allBookings, visible).csv, '\n')| == |visible| + 1
  {
    var lines := [HeaderLine()] + CsvLines(visible);
    HeaderLineWithoutNewline();
    CsvLinesWithoutNewline(visible);
    forall k | 0 <= k < |lines| ensures '\n' !in lines[k] {
      if k > 0 {
        assert lines[k] == CsvLines(visible)[k - 1];
      }
    }
    SplitJoin(lines, '\n');
    assert ExportCsv(allBookings, visible) == Download(Join(lines, "\n"));
  }

  /** Exporting what a filter shows: nothing before bookings are loaded, the
      alert when the filter matches none, and otherwise one CSV line per
      matching booking after the header, provided no cell holds a line break. */
  lemma ExportOfFilteredView(all: seq<Booking>, query: string, room: string, localise: int -> string)
    requires forall b, k :: b in all && 0 <= k < 8 ==> '\n' !in RowCells(b, localise)[k]
    ensures all == [] ==> ExportCsv(all, VisibleRows(RenderTable(ApplyFilters(all, query, room), localise))) == NotLoaded
    ensures all != [] && ApplyFilters(all, query, room) == [] ==>
      ExportCsv(all, VisibleRows(RenderTable(ApplyFilters(all, query, room), localise))) == Alert(NoDataMessage)
    ensures ApplyFilters(all, query, room) != [] ==>
      |Split(ExportCsv(all, VisibleRows(RenderTable(ApplyFilters(all, query, room), localise))).csv, '\n')|
        == |ApplyFilters(all, query, room)| + 1
  {
    var shown := ApplyFilters(all, query, room);
    var visible := VisibleRows(RenderTable(shown, localise));
    if shown != [] {
      FilterKeepsExactlyMatches(all, query, room);
      assert all != [];
      forall i, k | 0 <= i < |visible| && 0 <= k < |visible[i]| ensures '\n' !in visible[i][k] {
        assert shown[i] in all;
        assert visible[i] == RowCells(shown[i], localise);
      }
      ExportLines(all, visible);
    }
  }
}
