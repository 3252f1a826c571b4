/**
 * The meeting saga of the Feishu Calendar provider (providers/appointment_scheduling/feishu_calendar/provider.go): create the
 * event, invite the attendees, read it back, and delete it again when a later step fails.
 */
module FeishuCalendar {
  import opened GoStrings
  import opened ConnectorErrors
  import opened FeishuService

  datatype Attendee = Attendee(email: string, userId: string)

  datatype Meeting = Meeting(eventId: EventId, joinUrl: string, attendees: seq<Invitee>)

  /**
   * The connection and its secrets. `endpointValid` is `ValidateConfig`, `tokenEndpointValid` the check of the token request,
   * `defaultZone` the configured time zone; `digest` and `byteLength` stand for the hexadecimal SHA-256 and the length in bytes.
   */
  datatype Connection = Connection(
    endpointValid: bool, tokenEndpointValid: bool, calendarId: string, defaultZone: string,
    appId: string, appSecret: string, accessToken: string,
    digest: string -> string, byteLength: string -> nat)

  /** `start` and `end` are the parsed RFC 3339 instants in nanoseconds since the epoch, None when parsing fails. */
  datatype Booking = Booking(
    start: Option<int>, end: Option<int>, zone: string, requestRef: string, summary: string, description: string,
    attendees: seq<Attendee>)

  // ---- Classification ----

  /** No reply, too many requests, or a failure of the server. */
  predicate Transient(reply: Reply) {
    reply.NoReply? || reply.status == 429 || (500 <= reply.status && !Is2xx(reply.status))
  }

  /** What `execute` makes of a reply, for a write or a read. */
  function Classify(reply: Reply, write: bool): Result<Body, Failure> {
    match reply
    case NoReply => Fail(if write then Uncertain else Retryable, "network_error")
    case Reply(status, validJson, body) =>
      if !Is2xx(status) then
        if status == 429 then Err(Failure(Retryable, HttpStatus(status)))
        else if status == 408 || 500 <= status then Err(Failure(if write then Uncertain else Retryable, HttpStatus(status)))
        else Err(Failure(Permanent, HttpStatus(status)))
      else if !validJson then Fail(if write then Uncertain else Permanent, "response_invalid")
      else if body.code != 0 then Err(Failure(Permanent, ProviderCode(body.code)))
      else Ok(body)
  }

  /**
   * The classification of a write is exact: success means applied, Permanent or Retryable means rejected, and everything else
   * is Uncertain. A read is never Uncertain.
   */
  lemma ClassificationIsExact(reply: Reply)
    ensures var w := Classify(reply, true);
            && (w.Ok? <==> Succeeded(reply))
            && (w.Err? && w.error.kind != Uncertain <==> Rejected(reply))
            && (w.Err? && w.error.kind == Uncertain <==> !Succeeded(reply) && !Rejected(reply))
            && (w.Err? && w.error.kind == Retryable <==> reply.Reply? && reply.status == 429)
            && (w.Ok? ==> w.value == reply.body)
    ensures var r := Classify(reply, false);
            && (r.Ok? <==> Succeeded(reply))
            && (r.Err? ==> r.error.kind != Uncertain)
            && (r.Err? && r.error.kind == Retryable <==> Transient(reply) || (reply.Reply? && reply.status == 408))
            && (r.Ok? ==> r.value == reply.body)
  {
  }

  /** Entry `n` of the log is this request under this token. */
  predicate Sent(log: seq<Exchange>, n: nat, token: string, request: Request) {
    n < |log| && log[n].bearer == token && log[n].request == request
  }

  method Execute(service: Service, connection: Connection, token: string, request: Request, write: bool)
      returns (r: Result<Body, Failure>)
    requires service.Valid()
    modifies service
    ensures service.Valid() && old(service.log) <= service.log
    ensures var n := |old(service.log)|;
            if connection.endpointValid then
              |service.log| == n + 1 && Sent(service.log, n, token, request) && r == Classify(service.log[n].reply, write)
            else
              service.log == old(service.log) && r == Fail(Permanent, "endpoint_invalid")
  {
    if !connection.endpointValid {
      return Fail(Permanent, "endpoint_invalid");
    }
    var reply := service.RoundTrip(token, request);
    return Classify(reply, write);
  }

  // ---- The steps before the event is created ----

  predicate Addressable(a: Attendee) {
    TrimSpace(a.email) != "" || TrimSpace(a.userId) != ""
  }

  /** An e-mail address wins over a user identity. */
  function Normalized(a: Attendee): Invitee {
    if TrimSpace(a.email) != "" then ThirdParty(TrimSpace(a.email)) else User(TrimSpace(a.userId))
  }

  /** An attendee without white space around it: by address unless that is blank, then by identity, and one of the two. */
  lemma NormalizedIs(a: Attendee)
    ensures Addressable(a) <==> !(Blank(a.email) && Blank(a.userId))
    ensures !Blank(a.email) ==> Normalized(a).ThirdParty? && IsTrimOf(Normalized(a).email, a.email)
    ensures Blank(a.email) ==> Normalized(a).User? && IsTrimOf(Normalized(a).userId, a.userId)
  {
    TrimIsEmpty(a.email);
    TrimIsEmpty(a.userId);
    TrimSpaceIs(a.email);
    TrimSpaceIs(a.userId);
  }

  function NormalizedAll(attendees: seq<Attendee>): (r: seq<Invitee>)
    ensures |r| == |attendees| && forall k :: 0 <= k < |r| ==> r[k] == Normalized(attendees[k])
  {
    seq(|attendees|, k requires 0 <= k < |attendees| => Normalized(attendees[k]))
  }

  method NormalizeAttendees(input: seq<Attendee>) returns (r: Result<seq<Invitee>, Failure>)
    ensures r == if input == [] then Fail(Permanent, "attendees_required")
                 else if exists k :: 0 <= k < |input| && !Addressable(input[k]) then Fail(Permanent, "attendee_invalid")
                 else Ok(NormalizedAll(input))
  {
    if |input| == 0 {
      return Fail(Permanent, "attendees_required");
    }
    var output: seq<Invitee> := [];
    for k := 0 to |input|
      invariant output == NormalizedAll(input[..k])
      invariant forall m :: 0 <= m < k ==> Addressable(input[m])
    {
      var email := TrimSpace(input[k].email);
      if email != "" {
        output := output + [ThirdParty(email)];
        continue;
      }
      var id := TrimSpace(input[k].userId);
      if id != "" {
        output := output + [User(id)];
        continue;
      }
      assert !Addressable(input[k]);
      return Fail(Permanent, "attendee_invalid");
    }
    assert input[..|input|] == input;
    return Ok(output);
  }

  function RangeFault(start: Option<int>, end: Option<int>): (r: Option<Failure>)
    ensures r.None? <==> start.Some? && end.Some? && start.value < end.value
  {
    if start.None? then Some(Failure(Permanent, Named("start_invalid")))
    else if end.None? || end.value <= start.value then Some(Failure(Permanent, Named("end_invalid")))
    else None
  }

  function IdempotencyKey(connection: Connection, requestRef: string): string {
    var value := TrimSpace(requestRef);
    if 32 <= connection.byteLength(value) <= 128 then value else connection.digest(value)
  }

  /** A key is always 32 to 128 bytes long, and a key made from a key is that key. */
  lemma KeyHasItsLength(connection: Connection, requestRef: string)
    requires forall v :: connection.byteLength(connection.digest(v)) == 64 && Trimmed(connection.digest(v))
    ensures 32 <= connection.byteLength(IdempotencyKey(connection, requestRef)) <= 128
    ensures IdempotencyKey(connection, IdempotencyKey(connection, requestRef)) == IdempotencyKey(connection, requestRef)
  {
    TrimIsIdempotent(requestRef);
    TrimmedIsFixed(connection.digest(TrimSpace(requestRef)));
  }

  /** The trimmed reference itself if that is 32 to 128 bytes long, and its digest otherwise. */
  ghost predicate IsKeyOf(connection: Connection, requestRef: string, key: string) {
    exists t :: IsTrimOf(t, requestRef) && key == (if FitsAsKey(connection, t) then t else connection.digest(t))
  }

  predicate FitsAsKey(connection: Connection, ref: string) {
    32 <= connection.byteLength(ref) <= 128
  }

  lemma IdempotencyKeyIs(connection: Connection, requestRef: string)
    ensures IsKeyOf(connection, requestRef, IdempotencyKey(connection, requestRef))
  {
    TrimSpaceIs(requestRef);
  }

  /** The trimmed references are the same, or one is the digest of the other, which is not used as a key itself. */
  predicate Coincide(connection: Connection, s: string, t: string) {
    || s == t
    || (!FitsAsKey(connection, t) && s == connection.digest(t))
    || (!FitsAsKey(connection, s) && t == connection.digest(s))
  }

  /** As long as the digest, of 64 bytes, does not collide on them, two references share a key exactly then. */
  lemma KeysAgreeExactly(connection: Connection, a: string, b: string, s: string, t: string)
    requires IsTrimOf(s, a) && IsTrimOf(t, b)
    requires FitsAsKey(connection, connection.digest(s)) && FitsAsKey(connection, connection.digest(t))
    requires connection.digest(s) == connection.digest(t) ==> s == t
    ensures IdempotencyKey(connection, a) == IdempotencyKey(connection, b) <==> Coincide(connection, s, t)
  {
    TrimSpaceIs(a);
    TrimIsUnique(s, TrimSpace(a), a);
    TrimSpaceIs(b);
    TrimIsUnique(t, TrimSpace(b), b);
  }

  /** What `FetchTenantToken` makes of a reply. */
  function ClassifyToken(reply: Reply): Result<string, Failure> {
    match reply
    case NoReply => Fail(Retryable, "token_network_error")
    case Reply(status, validJson, body) =>
      if !Is2xx(status) then Err(Failure(if status == 429 || 500 <= status then Retryable else Permanent, HttpStatus(status)))
      else if !validJson then Fail(Permanent, "token_response_invalid")
      else if body.code != 0 then Fail(Permanent, "token_rejected")
      else if body.token == "" then Fail(Permanent, "token_response_invalid")
      else Ok(body.token)
  }

  lemma TokenClassificationIsExact(reply: Reply)
    ensures var r := ClassifyToken(reply);
            && (r.Ok? <==> Succeeded(reply) && reply.body.token != "")
            && (r.Ok? ==> r.value == reply.body.token)
            && (r.Err? ==> r.error.kind == if Transient(reply) then Retryable else Permanent)
  {
  }

  /** From entry `n` of the log on: whether a tenant token was fetched, and what came of it. */
  ghost predicate TokenSteps(log: seq<Exchange>, n: nat, next: nat, connection: Connection, r: Result<string, Failure>) {
    if connection.accessToken != "" then next == n && r == Ok(connection.accessToken)
    else if connection.appId == "" || connection.appSecret == "" then next == n && r == Fail(Permanent, "credentials_required")
    else if !connection.tokenEndpointValid then next == n && r == Fail(Permanent, "token_configuration_invalid")
    else
      && Sent(log, n, "", TenantToken(connection.appId, connection.appSecret))
      && next == n + 1 && r == ClassifyToken(log[n].reply)
  }

  method AccessToken(service: Service, connection: Connection) returns (r: Result<string, Failure>)
    requires service.Valid()
    modifies service
    ensures service.Valid() && old(service.log) <= service.log
    ensures TokenSteps(service.log, |old(service.log)|, |service.log|, connection, r)
  {
    if connection.accessToken != "" {
      return Ok(connection.accessToken);
    }
    if connection.appId == "" || connection.appSecret == "" {
      return Fail(Permanent, "credentials_required");
    }
    if !connection.tokenEndpointValid {
      return Fail(Permanent, "token_configuration_invalid");
    }
    var reply := service.RoundTrip("", TenantToken(connection.appId, connection.appSecret));
    return ClassifyToken(reply);
  }

  /** The runes `unicode.ToLower` maps to the lower-case ASCII letter `l`. */
  predicate LowersTo(c: char, l: char)
    requires 'a' <= l <= 'z'
  {
    c == l || c as int == l as int - 32 || (l == 'i' && c == '\U{130}') || (l == 'k' && c == '\U{212A}')
  }

  /** The letter itself, its capital, and the two other runes Unicode maps to an ASCII letter: U+0130 to i and U+212A to k. */
  lemma LowersToIs(c: char, k: nat)
    requires k < 26
    ensures LowersTo(c, "abcdefghijklmnopqrstuvwxyz"[k])
       <==> || c == "abcdefghijklmnopqrstuvwxyz"[k] || c == "ABCDEFGHIJKLMNOPQRSTUVWXYZ"[k]
            || (k == 8 && c == '\U{130}') || (k == 10 && c == '\U{212A}')
  {
  }

  lemma RolesAre()
    ensures RoleIs("owner", "owner") && RoleIs("Writer", "writer") && RoleIs("WR\U{130}TER", "writer")
    ensures !RoleIs("reader", "writer") && !RoleIs("owners", "owner")
  {
    assert "reader"[0] == 'r';
  }

  /** `strings.ToLower(role) == word`. */
  predicate RoleIs(role: string, word: string)
    requires forall k :: 0 <= k < |word| ==> 'a' <= word[k] <= 'z'
  {
    |role| == |word| && forall k :: 0 <= k < |word| ==> LowersTo(role[k], word[k])
  }

  predicate Writable(c: CalendarEntry) {
    !c.deleted && (RoleIs(c.role, "owner") || RoleIs(c.role, "writer")) && c.id != ""
  }

  /** Owned and writable calendars count, in any casing of the role, unless they are deleted or have no identity. */
  lemma CalendarsAre(id: string, deleted: bool)
    ensures Writable(CalendarEntry(id, "Owner", deleted)) <==> id != "" && !deleted
    ensures Writable(CalendarEntry(id, "writer", deleted)) <==> id != "" && !deleted
    ensures !Writable(CalendarEntry(id, "reader", deleted)) && !Writable(CalendarEntry(id, "", deleted))
  {
    assert "reader"[0] == 'r' && |"reader"| == 6 && |"owner"| == 5;
  }

  /** `id` is that of the first writable calendar, or None when there is none. */
  ghost predicate IsFirstWritable(calendars: seq<CalendarEntry>, id: Option<string>) {
    match id
    case None => forall k :: 0 <= k < |calendars| ==> !Writable(calendars[k])
    case Some(value) =>
      exists k :: 0 <= k < |calendars| && Writable(calendars[k]) && calendars[k].id == value
                  && forall m :: 0 <= m < k ==> !Writable(calendars[m])
  }

  method FirstWritable(calendars: seq<CalendarEntry>) returns (r: Option<string>)
    ensures IsFirstWritable(calendars, r)
  {
    for k := 0 to |calendars|
      invariant forall m :: 0 <= m < k ==> !Writable(calendars[m])
    {
      var c := calendars[k];
      if c.deleted || (!RoleIs(c.role, "owner") && !RoleIs(c.role, "writer")) {
        continue;
      }
      if c.id != "" {
        return Some(c.id);
      }
    }
    return None;
  }

  /** From entry `n` of the log on: the configured calendar, or the first writable one of the primary calendars. */
  ghost predicate CalendarSteps(log: seq<Exchange>, n: nat, next: nat, token: string, connection: Connection,
                                r: Result<string, Failure>) {
    if connection.calendarId != "" then next == n && r == Ok(connection.calendarId)
    else if !connection.endpointValid then next == n && r == Fail(Permanent, "endpoint_invalid")
    else
      && Sent(log, n, token, PrimaryCalendar) && next == n + 1
      && match Classify(log[n].reply, false)
         case Err(e) => r == Err(e)
         case Ok(body) =>
           if r.Ok? then IsFirstWritable(body.calendars, Some(r.value))
           else IsFirstWritable(body.calendars, None) && r == Fail(Permanent, "primary_calendar_unavailable")
  }

  method CalendarId(service: Service, connection: Connection, token: string) returns (r: Result<string, Failure>)
    requires service.Valid()
    modifies service
    ensures service.Valid() && old(service.log) <= service.log
    ensures CalendarSteps(service.log, |old(service.log)|, |service.log|, token, connection, r)
  {
    if connection.calendarId != "" {
      return Ok(connection.calendarId);
    }
    var output := Execute(service, connection, token, PrimaryCalendar, false);
    if output.Err? {
      return Err(output.error);
    }
    var id := FirstWritable(output.value.calendars);
    if id.None? {
      return Fail(Permanent, "primary_calendar_unavailable");
    }
    return Ok(id.value);
  }

  // ---- The saga ----

  /** What is wrong with the input alone; then no request is made. */
  ghost function BookingFault(booking: Booking): Option<Failure> {
    if RangeFault(booking.start, booking.end).Some? then RangeFault(booking.start, booking.end)
    else if booking.attendees == [] then Some(Failure(Permanent, Named("attendees_required")))
    else if exists k :: 0 <= k < |booking.attendees| && !Addressable(booking.attendees[k]) then
      Some(Failure(Permanent, Named("attendee_invalid")))
    else if TrimSpace(booking.requestRef) == "" then Some(Failure(Permanent, Named("request_ref_required")))
    else None
  }

  /** There is nothing wrong exactly with a booking that has a range, addressable attendees and a reference. */
  lemma BookingFaultIs(booking: Booking)
    ensures BookingFault(booking).None?
       <==> && booking.start.Some? && booking.end.Some? && booking.start.value < booking.end.value
            && booking.attendees != []
            && (forall k :: 0 <= k < |booking.attendees| ==> !(Blank(booking.attendees[k].email) && Blank(booking.attendees[k].userId)))
            && !Blank(booking.requestRef)
  {
    TrimIsEmpty(booking.requestRef);
    forall k | 0 <= k < |booking.attendees|
      ensures Addressable(booking.attendees[k]) <==> !(Blank(booking.attendees[k].email) && Blank(booking.attendees[k].userId))
    {
      NormalizedIs(booking.attendees[k]);
    }
  }

  /** `Time.Unix`. */
  function Seconds(instant: Option<int>): int {
    if instant.Some? then instant.value / 1_000_000_000 else 0
  }

  function DetailsOf(connection: Connection, booking: Booking): Details {
    Details(TrimSpace(booking.summary), TrimSpace(booking.description), Seconds(booking.start), Seconds(booking.end),
            if TrimSpace(booking.zone) == "" then connection.defaultZone else TrimSpace(booking.zone))
  }

  /** The texts trimmed, the times in whole seconds, each in its place, and the connection's zone when the booking names none. */
  ghost predicate Describes(connection: Connection, booking: Booking, d: Details) {
    && IsTrimOf(d.summary, booking.summary) && IsTrimOf(d.description, booking.description)
    && (if Blank(booking.zone) then d.zone == connection.defaultZone else IsTrimOf(d.zone, booking.zone))
    && (booking.start.Some? ==> d.start * 1_000_000_000 <= booking.start.value < (d.start + 1) * 1_000_000_000)
    && (booking.end.Some? ==> d.end * 1_000_000_000 <= booking.end.value < (d.end + 1) * 1_000_000_000)
  }

  lemma DetailsDescribe(connection: Connection, booking: Booking)
    ensures Describes(connection, booking, DetailsOf(connection, booking))
    ensures RangeFault(booking.start, booking.end).None? ==>
              DetailsOf(connection, booking).start <= DetailsOf(connection, booking).end
  {
    TrimSpaceIs(booking.summary);
    TrimSpaceIs(booking.description);
    TrimSpaceIs(booking.zone);
    TrimIsEmpty(booking.zone);
  }

  /** The last entry of the log deletes the event; only a confirmed deletion lets the cause through, and never as Uncertain. */
  ghost predicate Compensates(log: seq<Exchange>, n: nat, token: string, calendar: string, id: EventId, cause: Kind,
                              error: Failure) {
    && Sent(log, n, token, DeleteEvent(calendar, id)) && |log| == n + 1
    && error == (if Classify(log[n].reply, true).Err? then Failure(Uncertain, Named("compensation_failed"))
                 else Failure(if cause == Retryable then Retryable else Permanent, ROLLED_BACK))
  }

  const ROLLED_BACK := Named("meeting_creation_rolled_back")

  method CompensatedError(service: Service, connection: Connection, token: string, calendar: string, id: EventId, cause: Kind)
      returns (error: Failure)
    requires service.Valid() && connection.endpointValid
    modifies service
    ensures service.Valid() && old(service.log) <= service.log
    ensures Compensates(service.log, |old(service.log)|, token, calendar, id, cause, error)
  {
    var deleted := Execute(service, connection, token, DeleteEvent(calendar, id), true);
    if deleted.Err? {
      return Failure(Uncertain, Named("compensation_failed"));
    }
    if cause == Retryable {
      return Failure(Retryable, ROLLED_BACK);
    }
    return Failure(Permanent, ROLLED_BACK);
  }

  /** From entry `n` of the log on: invite, read back, and delete when either fails or the meeting address is missing. */
  ghost predicate CompletionSteps(log: seq<Exchange>, n: nat, token: string, calendar: string, id: EventId,
                                  invitees: seq<Invitee>, r: Result<Meeting, Failure>) {
    && Sent(log, n, token, AddAttendees(calendar, id, invitees))
    && match Classify(log[n].reply, true)
       case Err(e) => r.Err? && Compensates(log, n + 1, token, calendar, id, e.kind, r.error)
       case Ok(_) =>
         && Sent(log, n + 1, token, GetEvent(calendar, id))
         && match Classify(log[n + 1].reply, false)
            case Err(e) => r.Err? && Compensates(log, n + 2, token, calendar, id, e.kind, r.error)
            case Ok(body) =>
              if body.meetingUrl == "" then r.Err? && Compensates(log, n + 2, token, calendar, id, Permanent, r.error)
              else |log| == n + 2 && r == Ok(Meeting(id, body.meetingUrl, invitees))
  }

  method CompleteMeeting(service: Service, connection: Connection, token: string, calendar: string, id: EventId,
                         invitees: seq<Invitee>) returns (r: Result<Meeting, Failure>)
    requires service.Valid() && connection.endpointValid
    modifies service
    ensures service.Valid() && old(service.log) <= service.log
    ensures CompletionSteps(service.log, |old(service.log)|, token, calendar, id, invitees, r)
  {
    var invited := Execute(service, connection, token, AddAttendees(calendar, id, invitees), true);
    if invited.Err? {
      var error := CompensatedError(service, connection, token, calendar, id, invited.error.kind);
      return Err(error);
    }
    var current := Execute(service, connection, token, GetEvent(calendar, id), false);
    if current.Err? {
      var error := CompensatedError(service, connection, token, calendar, id, current.error.kind);
      return Err(error);
    }
    var joinUrl := current.value.meetingUrl;
    if joinUrl == "" {
      var error := CompensatedError(service, connection, token, calendar, id, Permanent);
      return Err(error);
    }
    return Ok(Meeting(id, joinUrl, invitees));
  }

  /** What a call asks to be created. */
  datatype Order = Order(key: string, details: Details, invitees: seq<Invitee>)

  function OrderOf(connection: Connection, booking: Booking): Order {
    Order(IdempotencyKey(connection, booking.requestRef), DetailsOf(connection, booking), NormalizedAll(booking.attendees))
  }

  /** From entry `n` of the log on: the creation, and what follows it. */
  ghost predicate CreationSteps(log: seq<Exchange>, n: nat, valid: bool, token: string, calendar: string, order: Order,
                                r: Result<Meeting, Failure>) {
    if !valid then |log| == n && r == Fail(Permanent, "endpoint_invalid")
    else
      && Sent(log, n, token, CreateEvent(calendar, order.key, order.details))
      && match Classify(log[n].reply, true)
         case Err(e) => |log| == n + 1 && r == Err(e)
         case Ok(body) =>
           if body.eventId == "" then |log| == n + 1 && r == Fail(Uncertain, "event_response_invalid")
           else CompletionSteps(log, n + 1, token, calendar, body.eventId, order.invitees, r)
  }

  method CreateEventAndComplete(service: Service, connection: Connection, token: string, calendar: string, order: Order)
      returns (r: Result<Meeting, Failure>)
    requires service.Valid()
    modifies service
    ensures service.Valid() && old(service.log) <= service.log
    ensures CreationSteps(service.log, |old(service.log)|, connection.endpointValid, token, calendar, order, r)
  {
    var created := Execute(service, connection, token, CreateEvent(calendar, order.key, order.details), true);
    if created.Err? {
      return Err(created.error);
    }
    var eventId := created.value.eventId;
    if eventId == "" {
      return Fail(Uncertain, "event_response_invalid");
    }
    r := CompleteMeeting(service, connection, token, calendar, eventId, order.invitees);
  }

  ghost predicate AfterCalendar(log: seq<Exchange>, n: nat, valid: bool, order: Order, token: string,
                                calendar: Result<string, Failure>, r: Result<Meeting, Failure>) {
    if calendar.Err? then |log| == n && r == Err(calendar.error)
    else CreationSteps(log, n, valid, token, calendar.value, order, r)
  }

  ghost predicate AfterToken(log: seq<Exchange>, n: nat, connection: Connection, order: Order, token: Result<string, Failure>,
                             r: Result<Meeting, Failure>) {
    if token.Err? then |log| == n && r == Err(token.error)
    else
      exists calendar, next: nat ::
        CalendarSteps(log, n, next, token.value, connection, calendar)
        && AfterCalendar(log, next, connection.endpointValid, order, token.value, calendar, r)
  }

  /** The whole conversation of one call, from entry `n` of the log to its end, and the result that follows from the replies. */
  ghost predicate Conversation(log: seq<Exchange>, n: nat, connection: Connection, booking: Booking, r: Result<Meeting, Failure>) {
    if BookingFault(booking).Some? then |log| == n && r == Err(BookingFault(booking).value)
    else
      exists token, next: nat ::
        TokenSteps(log, n, next, connection, token) && AfterToken(log, next, connection, OrderOf(connection, booking), token, r)
  }

  /** Finds the calendar and creates the meeting in it. */
  method BookMeeting(service: Service, connection: Connection, order: Order, token: string) returns (r: Result<Meeting, Failure>)
    requires service.Valid()
    modifies service
    ensures service.Valid() && old(service.log) <= service.log
    ensures AfterToken(service.log, |old(service.log)|, connection, order, Ok(token), r)
  {
    ghost var n := |service.log|;
    var calendar := CalendarId(service, connection, token);
    ghost var next := |service.log|;
    if calendar.Err? {
      assert AfterCalendar(service.log, next, connection.endpointValid, order, token, calendar, Err(calendar.error));
      return Err(calendar.error);
    }
    r := CreateEventAndComplete(service, connection, token, calendar.value, order);
    assert CalendarSteps(service.log, n, next, token, connection, calendar);
    assert AfterCalendar(service.log, next, connection.endpointValid, order, token, calendar, r);
  }

  method CreateMeeting(service: Service, connection: Connection, booking: Booking) returns (r: Result<Meeting, Failure>)
    requires service.Valid()
    modifies service
    ensures service.Valid() && old(service.log) <= service.log
    ensures Conversation(service.log, |old(service.log)|, connection, booking, r)
  {
    var fault := RangeFault(booking.start, booking.end);
    if fault.Some? {
      return Err(fault.value);
    }
    var normalized := NormalizeAttendees(booking.attendees);
    if normalized.Err? {
      return Err(normalized.error);
    }
    if TrimSpace(booking.requestRef) == "" {
      return Fail(Permanent, "request_ref_required");
    }
    ghost var n := |service.log|;
    var token := AccessToken(service, connection);
    var key := IdempotencyKey(connection, booking.requestRef);
    var order := Order(key, DetailsOf(connection, booking), normalized.value);
    if token.Err? {
      assert AfterToken(service.log, |service.log|, connection, order, token, Err(token.error));
      return Err(token.error);
    }
    r := BookMeeting(service, connection, order, token.value);
    assert TokenSteps(service.log, n, if connection.accessToken != "" then n else n + 1, connection, token);
  }
}
