/** The booking form of frontend/booking.js: reading the form's fields, the
    presence check on trimmed values, the `YYYY-MM-DD` date parse, the strict
    check-in before check-out rule, and the JSON payload that is posted to
    `/api/booking`. The only place in the application where the dates are
    compared. */
module BookingForm {
  import opened Js
  import Server

  // ---------------------------------------------------------------------------
  // Calendar dates

  datatype Date = Date(year: int, month: int, day: int)

  /** What `new Date(value + "T00:00:00")` yields: the local midnight of a
      calendar date, or an Invalid Date. */
  datatype JsDate = ValidDate(date: Date) | InvalidDate

  predicate IsLeapYear(y: int) {
    y % 4 == 0 && (y % 100 != 0 || y % 400 == 0)
  }

  function DaysInMonth(y: int, m: int): int
    requires 1 <= m <= 12
  {
    if m == 2 then (if IsLeapYear(y) then 29 else 28)
    else if m == 4 || m == 6 || m == 9 || m == 11 then 30
    else 31
  }

  function DaysInYear(y: int): int {
    if IsLeapYear(y) then 366 else 365
  }

  /** A date of the four-digit-year calendar that the `YYYY-MM-DD` format can name. */
  predicate IsCalendarDate(d: Date) {
    0 <= d.year <= 9999 && 1 <= d.month <= 12 && 1 <= d.day <= DaysInMonth(d.year, d.month)
  }

  /** Lexicographic order on (year, month, day). */
  predicate Earlier(a: Date, b: Date) {
    || a.year < b.year
    || (a.year == b.year && a.month < b.month)
    || (a.year == b.year && a.month == b.month && a.day < b.day)
  }

  // Days elapsed since 0000-01-01, the reference that `Earlier` is checked against.

  function DaysBeforeYear(y: nat): nat {
    if y == 0 then 0 else DaysBeforeYear(y - 1) + DaysInYear(y - 1)
  }

  function DaysBeforeMonth(y: int, m: int): nat
    requires 1 <= m <= 12
  {
    var leapDay := if m > 2 && IsLeapYear(y) then 1 else 0;
    leapDay +
      (if m == 1 then 0 else if m == 2 then 31 else if m == 3 then 59
       else if m == 4 then 90 else if m == 5 then 120 else if m == 6 then 151
       else if m == 7 then 181 else if m == 8 then 212 else if m == 9 then 243
       else if m == 10 then 273 else if m == 11 then 304 else 334)
  }

  function DayNumber(d: Date): int
    requires IsCalendarDate(d)
  {
    DaysBeforeYear(d.year) + DaysBeforeMonth(d.year, d.month) + d.day - 1
  }

  lemma {:induction false} YearsAdvance(y: nat, z: nat)
    requires y < z
    ensures DaysBeforeYear(y) + DaysInYear(y) <= DaysBeforeYear(z)
    decreases z - y
  {
    if y + 1 < z {
      YearsAdvance(y + 1, z);
    }
  }

  lemma {:induction false} MonthsAdvance(y: int, m: int, n: int)
    requires 1 <= m < n <= 12
    ensures DaysBeforeMonth(y, m) + DaysInMonth(y, m) <= DaysBeforeMonth(y, n)
    decreases n - m
  {
    if m + 1 < n {
      MonthsAdvance(y, m + 1, n);
    }
  }

  /** For calendar dates, the lexicographic order is the order of the days
      they denote: it is what comparing two local midnights decides. */
  lemma EarlierIsChronological(a: Date, b: Date)
    requires IsCalendarDate(a) && IsCalendarDate(b)
    ensures Earlier(a, b) <==> DayNumber(a) < DayNumber(b)
    ensures a == b <==> DayNumber(a) == DayNumber(b)
  {
    if a.year < b.year {
      YearsAdvance(a.year, b.year);
      assert DaysBeforeMonth(a.year, a.month) + a.day - 1 < DaysInYear(a.year) by {
        if a.month < 12 { MonthsAdvance(a.year, a.month, 12); }
      }
    } else if b.year < a.year {
      YearsAdvance(b.year, a.year);
      assert DaysBeforeMonth(b.year, b.month) + b.day - 1 < DaysInYear(b.year) by {
        if b.month < 12 { MonthsAdvance(b.year, b.month, 12); }
      }
    } else if a.month < b.month {
      MonthsAdvance(a.year, a.month, b.month);
    } else if b.month < a.month {
      MonthsAdvance(a.year, b.month, a.month);
    }
  }

  // ---------------------------------------------------------------------------
  // The YYYY-MM-DD text form

  function Pow10(n: nat): nat {
    if n == 0 then 1 else 10 * Pow10(n - 1)
  }

  /** The last `width` decimal digits of `n`, zero-padded on the left. */
  function Padded(n: nat, width: nat): (s: string)
    ensures |s| == width && forall k :: 0 <= k < width ==> IsDigit(s[k])
  {
    if width == 0 then [] else Padded(n / 10, width - 1) + [DigitChar(n % 10)]
  }

  lemma {:induction false} PaddedValue(n: nat, width: nat)
    requires n < Pow10(width)
    ensures DecimalValue(Padded(n, width)) == n
  {
    if width > 0 {
      var s := Padded(n, width);
      assert s[..|s| - 1] == Padded(n / 10, width - 1);
      PaddedValue(n / 10, width - 1);
    }
  }

  lemma {:induction false} ValuePadded(s: string)
    requires forall k :: 0 <= k < |s| ==> IsDigit(s[k])
    ensures Padded(DecimalValue(s), |s|) == s
  {
    if s != [] {
      var init := s[..|s| - 1];
      var v := DecimalValue(s);
      assert v / 10 == DecimalValue(init) && v % 10 == DigitValue(s[|s| - 1]);
      ValuePadded(init);
      assert s == init + [s[|s| - 1]];
    }
  }

  predicate IsDateShape(s: string) {
    && |s| == 10 && s[4] == '-' && s[7] == '-'
    && forall k :: 0 <= k < 10 && k != 4 && k != 7 ==> IsDigit(s[k])
  }

  /** Reads a `YYYY-MM-DD` string; anything else, or a day the calendar does
      not have, is None. */
  function ParseIsoDate(s: string): (r: Option<Date>)
    ensures r.Some? ==> IsCalendarDate(r.value)
  {
    if !IsDateShape(s) then None
    else
      var d := Date(DecimalValue(s[..4]), DecimalValue(s[5..7]), DecimalValue(s[8..]));
      if IsCalendarDate(d) then Some(d) else None
  }

  /** Writes a calendar date as `YYYY-MM-DD`. */
  function FormatIsoDate(d: Date): (s: string)
    requires IsCalendarDate(d)
    ensures IsDateShape(s)
  {
    Padded(d.year, 4) + "-" + Padded(d.month, 2) + "-" + Padded(d.day, 2)
  }

  /** Formatting then parsing gives the date back. */
  lemma ParseFormatted(d: Date)
    requires IsCalendarDate(d)
    ensures ParseIsoDate(FormatIsoDate(d)) == Some(d)
  {
    var s := FormatIsoDate(d);
    assert s[..4] == Padded(d.year, 4);
    assert s[5..7] == Padded(d.month, 2);
    assert s[8..] == Padded(d.day, 2);
    PaddedValue(d.year, 4);
    PaddedValue(d.month, 2);
    PaddedValue(d.day, 2);
  }

  /** Parsing then formatting gives the string back: a string names at most
      one date. */
  lemma FormattedParse(s: string)
    requires ParseIsoDate(s).Some?
    ensures FormatIsoDate(ParseIsoDate(s).value) == s
  {
    assert forall k :: 0 <= k < 4 ==> s[..4][k] == s[k];
    assert forall k :: 0 <= k < 2 ==> s[5..7][k] == s[k + 5] && s[8..][k] == s[k + 8];
    ValuePadded(s[..4]);
    ValuePadded(s[5..7]);
    ValuePadded(s[8..]);
    assert s == s[..4] + "-" + s[5..7] + "-" + s[8..];
  }

  /** `parseDate`: null for an empty value, otherwise the date at midnight that
      the value names, or an Invalid Date when it names none. */
  function ParseDate(value: string): (r: Option<JsDate>)
    ensures r.None? <==> value == ""
    ensures r.Some? && r.value.ValidDate? ==>
      IsCalendarDate(r.value.date) && FormatIsoDate(r.value.date) == value
    ensures r.Some? && r.value.InvalidDate? ==> ParseIsoDate(value).None?
  {
    if value == "" then None
    else
      match ParseIsoDate(value)
      case Some(d) =>
        FormattedParse(value);
        Some(ValidDate(d))
      case None => Some(InvalidDate)
  }

  /** Every calendar date is read back from its own `YYYY-MM-DD` text. */
  lemma ParseDateOfFormatted(d: Date)
    requires IsCalendarDate(d)
    ensures ParseDate(FormatIsoDate(d)) == Some(ValidDate(d))
  {
    ParseFormatted(d);
  }

  /** `a < b` on two Date objects: an Invalid Date compares false with anything. */
  predicate JsLess(a: JsDate, b: JsDate) {
    a.ValidDate? && b.ValidDate? && Earlier(a.date, b.date)
  }

  /** The date check of the submit handler: both dates present and check-in
      strictly earlier than check-out. */
  predicate DatesInOrder(checkin: string, checkout: string) {
    var inDate := ParseDate(checkin);
    var outDate := ParseDate(checkout);
    inDate.Some? && outDate.Some? && JsLess(inDate.value, outDate.value)
  }

  /** The date check passes exactly when both strings name calendar dates and
      the check-in day comes strictly before the check-out day. */
  lemma DatesInOrderMeaning(checkin: string, checkout: string)
    ensures DatesInOrder(checkin, checkout) <==>
      && ParseIsoDate(checkin).Some? && ParseIsoDate(checkout).Some?
      && DayNumber(ParseIsoDate(checkin).value) < DayNumber(ParseIsoDate(checkout).value)
  {
    if ParseIsoDate(checkin).Some? && ParseIsoDate(checkout).Some? {
      EarlierIsChronological(ParseIsoDate(checkin).value, ParseIsoDate(checkout).value);
    }
  }

  // ---------------------------------------------------------------------------
  // The submit handler

  /** The values read from the form; None is a field whose element is missing,
      which the optional chaining turns into `undefined`. */
  datatype Form = Form(
    name: Option<string>, email: Option<string>, room: Option<string>,
    checkin: Option<string>, checkout: Option<string>, notes: Option<string>)

  /** The JSON body posted to `/api/booking`; `notes` None is `null`. */
  datatype Payload = Payload(
    full_name: string, email: string, room_slug: string,
    checkin: string, checkout: string, notes: Option<string>)

  datatype Submission = Rejected(message: string) | Sent(payload: Payload)

  const MissingFieldsMessage := "Please fill in all required fields."
  const DateOrderMessage := "Check-out must be after check-in."

  function Trimmed(v: Option<string>): Option<string> {
    match v
    case None => None
    case Some(s) => Some(Trim(s))
  }

  predicate Filled(v: Option<string>) {
    v.Some? && v.value != ""
  }

  /** The presence check: name and e-mail after trimming, room and both dates
      as they are. */
  predicate RequiredFilled(f: Form) {
    && Filled(Trimmed(f.name))
    && Filled(Trimmed(f.email))
    && Filled(f.room)
    && Filled(f.checkin)
    && Filled(f.checkout)
  }

  /** `notes || null` on the trimmed notes: null when the notes are missing or
      blank, the trimmed text otherwise. */
  function NotesOrNull(notes: Option<string>): (r: Option<string>)
    ensures r.None? <==> notes.None? || Trim(notes.value) == ""
    ensures r.Some? ==> r.value == Trim(notes.value)
  {
    match Trimmed(notes)
    case Some(t) => if t != "" then Some(t) else None
    case None => None
  }

  /** The submit handler's decision: the missing-fields message first, then
      the date-order message, and otherwise the payload it posts. */
  function Submit(f: Form): (r: Submission)
    ensures r == Rejected(MissingFieldsMessage) <==> !RequiredFilled(f)
    ensures r == Rejected(DateOrderMessage) <==>
      RequiredFilled(f) && !DatesInOrder(f.checkin.value, f.checkout.value)
    ensures r.Sent? ==>
      && RequiredFilled(f)
      && r.payload.full_name == Trim(f.name.value)
      && r.payload.email == Trim(f.email.value)
      && r.payload.room_slug == f.room.value
      && r.payload.checkin == f.checkin.value
      && r.payload.checkout == f.checkout.value
      && r.payload.notes == NotesOrNull(f.notes)
    ensures RequiredFilled(f) && DatesInOrder(f.checkin.value, f.checkout.value) ==> r.Sent?
  {
    if !RequiredFilled(f) then
      Rejected(MissingFieldsMessage)
    else if !DatesInOrder(f.checkin.value, f.checkout.value) then
      Rejected(DateOrderMessage)
    else
      Sent(Payload(Trim(f.name.value), Trim(f.email.value), f.room.value,
                   f.checkin.value, f.checkout.value, NotesOrNull(f.notes)))
  }

  /** A sent payload names two calendar dates, check-in strictly before
      check-out, and a name and e-mail that are non-empty and carry no
      surrounding white space. */
  lemma SentPayloadIsWellFormed(f: Form, p: Payload)
    requires Submit(f) == Sent(p)
    ensures ParseIsoDate(p.checkin).Some? && ParseIsoDate(p.checkout).Some?
    ensures DayNumber(ParseIsoDate(p.checkin).value) < DayNumber(ParseIsoDate(p.checkout).value)
    ensures p.full_name != "" && !IsTrimSpace(p.full_name[0]) && !IsTrimSpace(p.full_name[|p.full_name| - 1])
    ensures p.email != "" && !IsTrimSpace(p.email[0]) && !IsTrimSpace(p.email[|p.email| - 1])
  {
    assert DatesInOrder(p.checkin, p.checkout);
    DatesInOrderMeaning(p.checkin, p.checkout);
    TrimSlice(f.name.value);
    TrimSlice(f.email.value);
  }

  /** Equal dates are refused with the date-order message. */
  lemma EqualDatesRejected(f: Form)
    requires RequiredFilled(f) && f.checkin == f.checkout
    ensures Submit(f) == Rejected(DateOrderMessage)
  {
  }

  /** A date that names no calendar day is refused with the date-order message. */
  lemma UnparseableDateRejected(f: Form)
    requires RequiredFilled(f)
    requires ParseIsoDate(f.checkin.value).None? || ParseIsoDate(f.checkout.value).None?
    ensures Submit(f) == Rejected(DateOrderMessage)
  {
  }

  /** `JSON.stringify` of the payload, as the server's JSON parser reads it back. */
  function RequestBody(p: Payload): Server.Body {
    map[
      "full_name" := Str(p.full_name),
      "email" := Str(p.email),
      "room_slug" := Str(p.room_slug),
      "checkin" := Str(p.checkin),
      "checkout" := Str(p.checkout),
      "notes" := if p.notes.Some? then Str(p.notes.value) else Null]
  }

  /** A payload with its five required properties non-empty passes the
      server's presence check, and the server inserts its values unchanged. */
  lemma PayloadAdmitted(p: Payload)
    requires p.full_name != "" && p.email != "" && p.room_slug != ""
    requires p.checkin != "" && p.checkout != ""
    requires p.notes.Some? ==> p.notes.value != ""
    ensures Server.HasRequiredFields(RequestBody(p))
    ensures Server.InsertArguments(RequestBody(p)) == Some(Server.InsertArgs(
      Str(p.full_name), Str(p.email), Str(p.room_slug), Str(p.checkin), Str(p.checkout),
      if p.notes.Some? then Str(p.notes.value) else Null))
  {
  }

  /** Whatever the form sends, the server admits, and it inserts exactly the
      trimmed name and e-mail, the room, the two dates and the trimmed notes
      or null. */
  lemma SentPassesServerCheck(f: Form, p: Payload)
    requires Submit(f) == Sent(p)
    ensures Server.HasRequiredFields(RequestBody(p))
    ensures Server.InsertArguments(RequestBody(p)) == Some(Server.InsertArgs(
      Str(Trim(f.name.value)), Str(Trim(f.email.value)), Str(f.room.value),
      Str(f.checkin.value), Str(f.checkout.value),
      if NotesOrNull(f.notes).Some? then Str(NotesOrNull(f.notes).value) else Null))
  {
    assert RequiredFilled(f);
    assert p == Payload(Trim(f.name.value), Trim(f.email.value), f.room.value,
                        f.checkin.value, f.checkout.value, NotesOrNull(f.notes));
    PayloadAdmitted(p);
  }
}
