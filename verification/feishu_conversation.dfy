/**
 * What the conversation of one call of the Feishu meeting saga shows: how long it is, when the call succeeds, and that a failed
 * call asks for the event it created to be deleted.
 */
module FeishuConversation {
  import opened GoStrings
  import opened ConnectorErrors
  import opened FeishuService
  import opened FeishuCalendar

  /** The reply is a success and has what the next step needs. */
  predicate Complete(e: Exchange) {
    && Succeeded(e.reply)
    && match e.request
       case TenantToken(_, _) => e.reply.body.token != ""
       case PrimaryCalendar => exists k :: 0 <= k < |e.reply.body.calendars| && Writable(e.reply.body.calendars[k])
       case CreateEvent(_, _, _) => e.reply.body.eventId != ""
       case AddAttendees(_, _, _) => true
       case GetEvent(_, _) => e.reply.body.meetingUrl != ""
       case DeleteEvent(_, _) => false
  }

  predicate HasCredentials(c: Connection) {
    c.accessToken != "" || (c.appId != "" && c.appSecret != "" && c.tokenEndpointValid)
  }

  /** Nothing on the caller's side stands in the way. */
  ghost predicate Ready(connection: Connection, booking: Booking) {
    BookingFault(booking).None? && HasCredentials(connection) && connection.endpointValid
  }

  /** An event that a failed call created is asked to be deleted, with the same token and last of all. */
  ghost predicate CleansUp(log: seq<Exchange>, n: nat, r: Result<Meeting, Failure>) {
    forall k :: n <= k < |log| && log[k].request.CreateEvent? && Complete(log[k]) && r.Err? ==>
      Sent(log, |log| - 1, log[k].bearer, DeleteEvent(log[k].request.calendar, log[k].reply.body.eventId))
  }

  /** Complete from entry `n` on. */
  ghost predicate AllComplete(log: seq<Exchange>, n: nat) {
    forall k :: n <= k < |log| ==> Complete(log[k])
  }

  /** What a conversation from entry `n` on shows: its length, when it succeeds, and that it cleans up. */
  ghost predicate Shows(log: seq<Exchange>, n: nat, most: nat, ready: bool, r: Result<Meeting, Failure>) {
    n <= |log| <= n + most && (r.Ok? <==> ready && AllComplete(log, n)) && CleansUp(log, n, r)
  }

  lemma CompletionIsExact(log: seq<Exchange>, n: nat, token: string, calendar: string, id: EventId, invitees: seq<Invitee>,
                          r: Result<Meeting, Failure>)
    requires CompletionSteps(log, n, token, calendar, id, invitees, r)
    ensures n < |log| <= n + 3 && (r.Ok? <==> AllComplete(log, n))
    ensures forall k :: n <= k < |log| ==> !log[k].request.CreateEvent?
    ensures r.Err? ==> Sent(log, |log| - 1, token, DeleteEvent(calendar, id))
  {
    ClassificationIsExact(log[n].reply);
    assert r.Err? ==> !Complete(log[|log| - 1]);
    if n + 1 < |log| {
      ClassificationIsExact(log[n + 1].reply);
    }
  }

  lemma CreationIsExact(log: seq<Exchange>, n: nat, valid: bool, token: string, calendar: string, order: Order,
                        r: Result<Meeting, Failure>)
    requires CreationSteps(log, n, valid, token, calendar, order, r)
    ensures Shows(log, n, 4, valid, r)
  {
    if valid {
      ClassificationIsExact(log[n].reply);
      if log[n].reply.Reply? && Complete(log[n]) {
        CompletionIsExact(log, n + 1, token, calendar, log[n].reply.body.eventId, order.invitees, r);
      }
    }
  }

  lemma CalendarIsExact(log: seq<Exchange>, n: nat, next: nat, token: string, connection: Connection, r: Result<string, Failure>)
    requires CalendarSteps(log, n, next, token, connection, r)
    ensures if next == n then r.Ok? || !connection.endpointValid
            else next == n + 1 <= |log| && !log[n].request.CreateEvent? && (r.Ok? <==> Complete(log[n])) && connection.endpointValid
  {
    if next == n + 1 {
      ClassificationIsExact(log[n].reply);
    }
  }

  lemma TokenIsExact(log: seq<Exchange>, n: nat, next: nat, connection: Connection, r: Result<string, Failure>)
    requires TokenSteps(log, n, next, connection, r)
    ensures if next == n then r.Ok? <==> HasCredentials(connection)
            else next == n + 1 <= |log| && !log[n].request.CreateEvent? && (r.Ok? <==> Complete(log[n])) && HasCredentials(connection)
  {
  }

  /** The exchanges from `n` to `next` are none, or one that creates nothing. */
  lemma OneMore(log: seq<Exchange>, n: nat, next: nat, r: Result<Meeting, Failure>)
    requires next == n || (next == n + 1 <= |log| && !log[n].request.CreateEvent?)
    ensures AllComplete(log, n) <==> AllComplete(log, next) && (next == n || Complete(log[n]))
    ensures CleansUp(log, next, r) ==> CleansUp(log, n, r)
  {
  }

  lemma EndsHere(log: seq<Exchange>, n: nat, next: nat, most: nat, ready: bool, r: Result<Meeting, Failure>)
    requires |log| == next && r.Err? && 0 < most
    requires (next == n && !ready) || (next == n + 1 && !log[n].request.CreateEvent? && !Complete(log[n]))
    ensures Shows(log, n, most, ready, r)
  {
    OneMore(log, n, next, r);
  }

  lemma GoesOn(log: seq<Exchange>, n: nat, next: nat, most: nat, ready: bool, ready': bool, r: Result<Meeting, Failure>)
    requires Shows(log, next, most, ready, r) && (ready' <==> ready)
    requires next == n || (next == n + 1 <= |log| && !log[n].request.CreateEvent? && Complete(log[n]))
    ensures Shows(log, n, most + 1, ready', r)
  {
    OneMore(log, n, next, r);
  }

  lemma BookingShows(log: seq<Exchange>, n: nat, connection: Connection, order: Order, token: string,
                     calendar: Result<string, Failure>, next: nat, r: Result<Meeting, Failure>)
    requires CalendarSteps(log, n, next, token, connection, calendar)
    requires AfterCalendar(log, next, connection.endpointValid, order, token, calendar, r)
    ensures Shows(log, n, 5, connection.endpointValid, r)
  {
    CalendarIsExact(log, n, next, token, connection, calendar);
    if calendar.Ok? {
      CreationIsExact(log, next, connection.endpointValid, token, calendar.value, order, r);
      GoesOn(log, n, next, 4, connection.endpointValid, connection.endpointValid, r);
    } else {
      EndsHere(log, n, next, 5, connection.endpointValid, r);
    }
  }

  lemma AfterTokenShows(log: seq<Exchange>, n: nat, connection: Connection, order: Order, token: string,
                        r: Result<Meeting, Failure>)
    requires AfterToken(log, n, connection, order, Ok(token), r)
    ensures Shows(log, n, 5, connection.endpointValid, r)
  {
    var calendar, next: nat :| CalendarSteps(log, n, next, token, connection, calendar)
                               && AfterCalendar(log, next, connection.endpointValid, order, token, calendar, r);
    BookingShows(log, n, connection, order, token, calendar, next, r);
  }

  lemma TokenShows(log: seq<Exchange>, n: nat, connection: Connection, order: Order, token: Result<string, Failure>,
                   next: nat, r: Result<Meeting, Failure>)
    requires TokenSteps(log, n, next, connection, token) && AfterToken(log, next, connection, order, token, r)
    ensures Shows(log, n, 6, HasCredentials(connection) && connection.endpointValid, r)
  {
    var ready := HasCredentials(connection) && connection.endpointValid;
    TokenIsExact(log, n, next, connection, token);
    if token.Ok? {
      AfterTokenShows(log, next, connection, order, token.value, r);
      GoesOn(log, n, next, 5, connection.endpointValid, ready, r);
    } else {
      EndsHere(log, n, next, 6, ready, r);
    }
  }

  /**
   * A call takes at most six exchanges and succeeds exactly when its input, credentials and endpoint are in order and every
   * reply is complete; when it fails after the event was created, it ends by deleting that event.
   */
  lemma SuccessIsExact(log: seq<Exchange>, n: nat, connection: Connection, booking: Booking, r: Result<Meeting, Failure>)
    requires Conversation(log, n, connection, booking, r)
    ensures n <= |log| <= n + 6
    ensures r.Ok? <==> Ready(connection, booking) && AllComplete(log, n)
    ensures CleansUp(log, n, r)
  {
    if BookingFault(booking).None? {
      var order := OrderOf(connection, booking);
      var token, next: nat :| TokenSteps(log, n, next, connection, token) && AfterToken(log, next, connection, order, token, r);
      TokenShows(log, n, connection, order, token, next, r);
    }
  }

  // ---- What is asked for ----

  /** From entry `n` on, an event is only created for this order, and only its attendees are invited. */
  ghost predicate AsksFor(log: seq<Exchange>, n: nat, order: Order) {
    forall k :: n <= k < |log| ==>
      match log[k].request
      case CreateEvent(_, key, details) => key == order.key && details == order.details
      case AddAttendees(_, _, invitees) => invitees == order.invitees
      case _ => true
  }

  lemma CompletionAsks(log: seq<Exchange>, n: nat, token: string, calendar: string, id: EventId, order: Order,
                       r: Result<Meeting, Failure>)
    requires CompletionSteps(log, n, token, calendar, id, order.invitees, r)
    ensures AsksFor(log, n, order)
  {
  }

  lemma CreationAsks(log: seq<Exchange>, n: nat, valid: bool, token: string, calendar: string, order: Order,
                     r: Result<Meeting, Failure>)
    requires CreationSteps(log, n, valid, token, calendar, order, r)
    ensures AsksFor(log, n, order)
  {
    if valid && n + 1 < |log| {
      CompletionAsks(log, n + 1, token, calendar, log[n].reply.body.eventId, order, r);
    }
  }

  lemma BookingAsks(log: seq<Exchange>, n: nat, connection: Connection, order: Order, token: string, next: nat,
                    calendar: Result<string, Failure>, r: Result<Meeting, Failure>)
    requires CalendarSteps(log, n, next, token, connection, calendar)
    requires AfterCalendar(log, next, connection.endpointValid, order, token, calendar, r)
    ensures AsksFor(log, n, order)
  {
    if calendar.Ok? {
      CreationAsks(log, next, connection.endpointValid, token, calendar.value, order, r);
    }
  }

  lemma AfterTokenAsks(log: seq<Exchange>, n: nat, connection: Connection, order: Order, token: Result<string, Failure>,
                       r: Result<Meeting, Failure>)
    requires AfterToken(log, n, connection, order, token, r)
    ensures AsksFor(log, n, order)
  {
    if token.Ok? {
      var calendar, next: nat :| CalendarSteps(log, n, next, token.value, connection, calendar)
                                 && AfterCalendar(log, next, connection.endpointValid, order, token.value, calendar, r);
      BookingAsks(log, n, connection, order, token.value, next, calendar, r);
    }
  }

  lemma TokenAsks(log: seq<Exchange>, n: nat, connection: Connection, order: Order, token: Result<string, Failure>, next: nat,
                  r: Result<Meeting, Failure>)
    requires TokenSteps(log, n, next, connection, token) && AfterToken(log, next, connection, order, token, r)
    ensures AsksFor(log, n, order)
  {
    AfterTokenAsks(log, next, connection, order, token, r);
  }

  lemma ConversationAsks(log: seq<Exchange>, n: nat, connection: Connection, booking: Booking, r: Result<Meeting, Failure>)
    requires Conversation(log, n, connection, booking, r)
    ensures AsksFor(log, n, OrderOf(connection, booking))
  {
    if BookingFault(booking).None? {
      var order := OrderOf(connection, booking);
      var token, next: nat :| TokenSteps(log, n, next, connection, token) && AfterToken(log, next, connection, order, token, r);
      TokenAsks(log, n, connection, order, token, next, r);
    }
  }

  /** The key of the event a call creates is made from its reference, and its details and attendees are those of the booking. */
  lemma RequestsAreForBooking(log: seq<Exchange>, n: nat, k: nat, connection: Connection, booking: Booking, r: Result<Meeting, Failure>)
    requires Conversation(log, n, connection, booking, r) && n <= k < |log|
    ensures log[k].request.CreateEvent? ==>
              && IsKeyOf(connection, booking.requestRef, log[k].request.key)
              && Describes(connection, booking, log[k].request.details)
    ensures log[k].request.AddAttendees? ==>
              && |log[k].request.invitees| == |booking.attendees|
              && forall i :: 0 <= i < |booking.attendees| ==> log[k].request.invitees[i] == Normalized(booking.attendees[i])
  {
    IdempotencyKeyIs(connection, booking.requestRef);
    DetailsDescribe(connection, booking);
    ConversationAsks(log, n, connection, booking, r);
  }
}
