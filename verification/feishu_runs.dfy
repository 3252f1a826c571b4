/**
 * Whole runs of the Feishu meeting saga: what is live on the calendar after a host has repeated a request, and which results a
 * repeated request can still have.
 */
module FeishuRuns {
  import opened GoStrings
  import opened ConnectorErrors
  import opened FeishuService
  import opened FeishuCalendar
  import opened FeishuConversation
  import opened FeishuSaga

  // ---- What a call can do ----

  /** Some conversation of a call, with a service that behaves, takes the service from `pre` to `post` and has this result. */
  ghost predicate Possible(dedup: bool, pre: State, post: State, connection: Connection, booking: Booking,
                           r: Result<Meeting, Failure>) {
    exists log, n: nat :: Traced(dedup, log, n, pre, post) && Conversation(log, n, connection, booking, r)
  }

  lemma PossibleIsSaga(dedup: bool, pre: State, post: State, connection: Connection, booking: Booking,
                       r: Result<Meeting, Failure>)
    requires Consistent(dedup, pre) && Possible(dedup, pre, post, connection, booking, r)
    ensures Saga(dedup, pre, post, IdempotencyKey(connection, booking.requestRef), NormalizedAll(booking.attendees), r)
  {
    var log, n: nat :| Traced(dedup, log, n, pre, post) && Conversation(log, n, connection, booking, r);
    ConversationIsSaga(dedup, pre, post, log, n, connection, booking, r);
  }

  ghost predicate CanSucceed(dedup: bool, pre: State, connection: Connection, booking: Booking) {
    exists post, m :: Possible(dedup, pre, post, connection, booking, Ok(m))
  }

  /** There is always an identity that was never given out. */
  lemma {:induction false} LongerThanAll(ids: set<string>) returns (n: nat)
    ensures forall id :: id in ids ==> |id| < n
    decreases |ids|
  {
    if ids == {} {
      n := 0;
    } else {
      var id :| id in ids;
      n := LongerThanAll(ids - {id});
      if n <= |id| {
        n := |id| + 1;
      }
    }
  }

  lemma NewIdentity(ids: set<string>) returns (id: string)
    ensures id !in ids && id != ""
  {
    var n := LongerThanAll(ids);
    id := seq(n + 1, _ => 'x');
  }

  const OK_BODY := Body(0, "", "", "t", [CalendarEntry("c", "owner", false)])

  /** The service accepts a request without saying more than it has to. */
  function Accepting(body: Body): Reply {
    Reply(200, true, body)
  }

  const REFUSED := Reply(429, true, OK_BODY)

  /** What an ordinary service answers until the creation: a token and a writable calendar. */
  lemma Preparation(dedup: bool, pre: State, connection: Connection)
      returns (log: seq<Exchange>, afterToken: nat, token: string, calendar: string)
    requires HasCredentials(connection) && connection.endpointValid
    ensures Traced(dedup, log, 0, pre, pre)
    ensures TokenSteps(log, 0, afterToken, connection, Ok(token))
    ensures CalendarSteps(log, afterToken, |log|, token, connection, Ok(calendar))
  {
    log, afterToken := [], 0;
    token := connection.accessToken;
    if connection.accessToken == "" {
      token := "t";
      log := [Exchange("", TenantToken(connection.appId, connection.appSecret), Accepting(OK_BODY), pre, pre)];
      afterToken := 1;
    }
    calendar := connection.calendarId;
    if connection.calendarId == "" {
      calendar := "c";
      var e := Exchange(token, PrimaryCalendar, Accepting(OK_BODY), pre, pre);
      TracedSnoc(dedup, log, pre, e);
      log := log + [e];
      assert RoleIs("owner", "owner");
      assert Writable(OK_BODY.calendars[0]);
      assert IsFirstWritable(OK_BODY.calendars, Some("c"));
    }
  }

  /** Steps of one log are steps of a longer one. */
  lemma StepsExtend(short: seq<Exchange>, log: seq<Exchange>, afterToken: nat, connection: Connection, token: string,
                    calendar: string)
    requires short <= log
    requires TokenSteps(short, 0, afterToken, connection, Ok(token))
    requires CalendarSteps(short, afterToken, |short|, token, connection, Ok(calendar))
    ensures TokenSteps(log, 0, afterToken, connection, Ok(token))
    ensures CalendarSteps(log, afterToken, |short|, token, connection, Ok(calendar))
  {
  }

  /** A prepared log and the steps from the creation on make a conversation. */
  lemma Converse(log: seq<Exchange>, afterToken: nat, n: nat, connection: Connection, booking: Booking, token: string,
                 calendar: string, r: Result<Meeting, Failure>)
    requires Ready(connection, booking)
    requires TokenSteps(log, 0, afterToken, connection, Ok(token))
    requires CalendarSteps(log, afterToken, n, token, connection, Ok(calendar))
    requires CreationSteps(log, n, true, token, calendar, OrderOf(connection, booking), r)
    ensures Conversation(log, 0, connection, booking, r)
  {
    assert AfterCalendar(log, n, true, OrderOf(connection, booking), token, Ok(calendar), r);
    assert AfterToken(log, afterToken, connection, OrderOf(connection, booking), Ok(token), r);
  }

  /** The reply to a creation, and the service after it: the replayed event, or a new one. */
  lemma Creation(dedup: bool, pre: State, calendar: string, order: Order) returns (id: EventId, url: string, now: State)
    requires Consistent(dedup, pre) && (Replayed(dedup, pre, order.key) ==> !Gone(pre, order.key))
    ensures id != "" && id in now.live && now.live[id].url == url && Consistent(dedup, now)
    ensures Served(dedup, Exchange("", CreateEvent(calendar, order.key, order.details),
                                   Accepting(OK_BODY.(eventId := id)), pre, now))
    ensures if Replayed(dedup, pre, order.key) then now == pre && id == pre.byKey[order.key] else url == "u"
  {
    if Replayed(dedup, pre, order.key) {
      id, now := pre.byKey[order.key], pre;
      url := pre.live[id].url;
    } else {
      id := NewIdentity(pre.issued);
      url := "u";
      now := State(pre.live[id := Event(order.key, None, url)], pre.issued + {id}, pre.byKey[order.key := id]);
      assert Created(dedup, pre, order.key, id, now);
      CreatedKeepsConsistent(dedup, pre, order.key, id, now);
    }
  }

  /** The three exchanges of a meeting that works out. */
  lemma Success(dedup: bool, pre: State, front: seq<Exchange>, token: string, calendar: string, order: Order)
      returns (log: seq<Exchange>, post: State, m: Meeting)
    requires Consistent(dedup, pre) && Traced(dedup, front, 0, pre, pre)
    requires Replayed(dedup, pre, order.key) ==> !Gone(pre, order.key) && pre.live[pre.byKey[order.key]].url != ""
    ensures front <= log && Traced(dedup, log, 0, pre, post)
    ensures CreationSteps(log, |front|, true, token, calendar, order, Ok(m))
  {
    var id, url, now := Creation(dedup, pre, calendar, order);
    post := Invited(now, id, order.invitees);
    var e1 := Exchange(token, CreateEvent(calendar, order.key, order.details), Accepting(OK_BODY.(eventId := id)), pre, now);
    var e2 := Exchange(token, AddAttendees(calendar, id, order.invitees), Accepting(OK_BODY), now, post);
    var e3 := Exchange(token, GetEvent(calendar, id), Accepting(OK_BODY.(meetingUrl := url)), post, post);
    TracedSnoc(dedup, front, pre, e1);
    TracedSnoc(dedup, front + [e1], pre, e2);
    TracedSnoc(dedup, front + [e1] + [e2], pre, e3);
    log := front + [e1] + [e2] + [e3];
    m := Meeting(id, url, order.invitees);
    assert log[|front|] == e1 && log[|front| + 1] == e2 && log[|front| + 2] == e3;
  }

  lemma SuccessNeedsTheEvent(dedup: bool, pre: State, post: State, connection: Connection, booking: Booking, m: Meeting)
    requires Consistent(dedup, pre) && Possible(dedup, pre, post, connection, booking, Ok(m))
    ensures var key := IdempotencyKey(connection, booking.requestRef);
            Replayed(dedup, pre, key) ==> !Gone(pre, key) && pre.live[pre.byKey[key]].url != ""
  {
    PossibleIsSaga(dedup, pre, post, connection, booking, Ok(m));
  }

  /** A call can succeed exactly when the event of a replayed key is live and has a meeting address; a new key always can. */
  lemma SuccessIsPossibleExactly(dedup: bool, pre: State, connection: Connection, booking: Booking)
    requires Consistent(dedup, pre) && Ready(connection, booking)
    ensures var key := IdempotencyKey(connection, booking.requestRef);
            CanSucceed(dedup, pre, connection, booking)
            <==> (Replayed(dedup, pre, key) ==> !Gone(pre, key) && pre.live[pre.byKey[key]].url != "")
  {
    var order := OrderOf(connection, booking);
    if Replayed(dedup, pre, order.key) ==> !Gone(pre, order.key) && pre.live[pre.byKey[order.key]].url != "" {
      var front, afterToken, token, calendar := Preparation(dedup, pre, connection);
      var log, post, m := Success(dedup, pre, front, token, calendar, order);
      StepsExtend(front, log, afterToken, connection, token, calendar);
      Converse(log, afterToken, |front|, connection, booking, token, calendar, Ok(m));
      assert Possible(dedup, pre, post, connection, booking, Ok(m));
    } else {
      forall post, m | Possible(dedup, pre, post, connection, booking, Ok(m))
        ensures false
      {
        SuccessNeedsTheEvent(dedup, pre, post, connection, booking, m);
      }
    }
  }

  /** The three exchanges of a meeting whose attendees are refused for now. */
  lemma Rollback(dedup: bool, pre: State, front: seq<Exchange>, token: string, calendar: string, order: Order)
      returns (log: seq<Exchange>, post: State)
    requires Consistent(dedup, pre) && Traced(dedup, front, 0, pre, pre)
    requires Replayed(dedup, pre, order.key) ==> !Gone(pre, order.key)
    ensures front <= log && Traced(dedup, log, 0, pre, post)
    ensures CreationSteps(log, |front|, true, token, calendar, order, Err(Failure(Retryable, ROLLED_BACK)))
  {
    var id, url, now := Creation(dedup, pre, calendar, order);
    post := now.(live := now.live - {id});
    var e1 := Exchange(token, CreateEvent(calendar, order.key, order.details), Accepting(OK_BODY.(eventId := id)), pre, now);
    var e2 := Exchange(token, AddAttendees(calendar, id, order.invitees), REFUSED, now, now);
    var e3 := Exchange(token, DeleteEvent(calendar, id), Accepting(OK_BODY), now, post);
    TracedSnoc(dedup, front, pre, e1);
    TracedSnoc(dedup, front + [e1], pre, e2);
    TracedSnoc(dedup, front + [e1] + [e2], pre, e3);
    log := front + [e1] + [e2] + [e3];
    assert log[|front|] == e1 && log[|front| + 1] == e2 && log[|front| + 2] == e3;
  }

  lemma RollbackIsPossible(dedup: bool, pre: State, connection: Connection, booking: Booking)
    requires Consistent(dedup, pre) && Ready(connection, booking)
    requires !Replayed(dedup, pre, IdempotencyKey(connection, booking.requestRef))
             || !Gone(pre, IdempotencyKey(connection, booking.requestRef))
    ensures exists post :: Possible(dedup, pre, post, connection, booking, Err(Failure(Retryable, ROLLED_BACK)))
  {
    var front, afterToken, token, calendar := Preparation(dedup, pre, connection);
    var log, post := Rollback(dedup, pre, front, token, calendar, OrderOf(connection, booking));
    StepsExtend(front, log, afterToken, connection, token, calendar);
    Converse(log, afterToken, |front|, connection, booking, token, calendar, Err(Failure(Retryable, ROLLED_BACK)));
    assert Possible(dedup, pre, post, connection, booking, Err(Failure(Retryable, ROLLED_BACK)));
  }

  lemma RefusalIsPossible(dedup: bool, pre: State, connection: Connection, booking: Booking)
    requires Consistent(dedup, pre) && Ready(connection, booking)
    ensures Possible(dedup, pre, pre, connection, booking, Err(Failure(Retryable, HttpStatus(429))))
  {
    var order := OrderOf(connection, booking);
    var front, afterToken, token, calendar := Preparation(dedup, pre, connection);
    var refused := Exchange(token, CreateEvent(calendar, order.key, order.details), REFUSED, pre, pre);
    var log := front + [refused];
    TracedSnoc(dedup, front, pre, refused);
    StepsExtend(front, log, afterToken, connection, token, calendar);
    Converse(log, afterToken, |front|, connection, booking, token, calendar, Err(Failure(Retryable, HttpStatus(429))));
  }

  // ---- What a call can lose ----

  /** Without credentials or an endpoint, or with a fault in the input, the service stays as it is. */
  lemma NotReadyChangesNothing(dedup: bool, pre: State, post: State, connection: Connection, booking: Booking,
                               r: Result<Meeting, Failure>)
    requires Possible(dedup, pre, post, connection, booking, r) && !Ready(connection, booking)
    ensures post == pre
  {
    var log, n: nat :| Traced(dedup, log, n, pre, post) && Conversation(log, n, connection, booking, r);
    if BookingFault(booking).None? {
      var order := OrderOf(connection, booking);
      var token, next: nat :| TokenSteps(log, n, next, connection, token) && AfterToken(log, next, connection, order, token, r);
      TokenKeepsState(dedup, pre, post, log, n, next, connection, token);
      if token.Ok? {
        NoEndpointChangesNothing(dedup, pre, post, log, next, connection, order, token.value, r);
      }
    }
  }

  lemma NoEndpointChangesNothing(dedup: bool, pre: State, post: State, log: seq<Exchange>, n: nat, connection: Connection,
                                 order: Order, token: string, r: Result<Meeting, Failure>)
    requires Traced(dedup, log, n, pre, post) && AfterToken(log, n, connection, order, Ok(token), r)
    ensures !connection.endpointValid ==> post == pre
  {
    var calendar, next: nat :| CalendarSteps(log, n, next, token, connection, calendar)
                               && AfterCalendar(log, next, connection.endpointValid, order, token, calendar, r);
    CalendarKeepsState(dedup, pre, post, log, n, next, token, connection, calendar);
  }

  /** A call may end with this event gone. */
  ghost predicate CanLose(dedup: bool, pre: State, connection: Connection, booking: Booking, id: EventId) {
    exists post, r :: Possible(dedup, pre, post, connection, booking, r) && id !in post.live
  }

  /** A call can lose a live event exactly when it is well formed and the event is the one its key is replayed with. */
  lemma LossIsPossibleExactly(dedup: bool, pre: State, connection: Connection, booking: Booking, id: EventId)
    requires Consistent(dedup, pre) && id in pre.live
    ensures var key := IdempotencyKey(connection, booking.requestRef);
            CanLose(dedup, pre, connection, booking, id)
            <==> Ready(connection, booking) && Replayed(dedup, pre, key) && pre.byKey[key] == id
  {
    var key := IdempotencyKey(connection, booking.requestRef);
    var rolledBack := Err(Failure(Retryable, ROLLED_BACK));
    if Ready(connection, booking) && Replayed(dedup, pre, key) && pre.byKey[key] == id {
      RollbackIsPossible(dedup, pre, connection, booking);
      var post :| Possible(dedup, pre, post, connection, booking, rolledBack);
      PossibleIsSaga(dedup, pre, post, connection, booking, rolledBack);
    }
    forall post, r | Possible(dedup, pre, post, connection, booking, r) && id !in post.live
      ensures Ready(connection, booking) && Replayed(dedup, pre, key) && pre.byKey[key] == id
    {
      LossNeedsTheKey(dedup, pre, post, connection, booking, r, id);
    }
  }

  lemma LossNeedsTheKey(dedup: bool, pre: State, post: State, connection: Connection, booking: Booking,
                        r: Result<Meeting, Failure>, id: EventId)
    requires Consistent(dedup, pre) && id in pre.live && id !in post.live
    requires Possible(dedup, pre, post, connection, booking, r)
    ensures var key := IdempotencyKey(connection, booking.requestRef);
            Ready(connection, booking) && Replayed(dedup, pre, key) && pre.byKey[key] == id
  {
    var key := IdempotencyKey(connection, booking.requestRef);
    if !Ready(connection, booking) {
      NotReadyChangesNothing(dedup, pre, post, connection, booking, r);
    }
    PossibleIsSaga(dedup, pre, post, connection, booking, r);
    if Replayed(dedup, pre, key) {
      OthersStay(pre.live, post.live, pre.byKey[key], id);
    }
  }

  lemma OthersStay(a: map<EventId, Event>, b: map<EventId, Event>, k: EventId, id: EventId)
    ensures a - {k} == b - {k} && id != k && id in a ==> id in b
  {
    if a - {k} == b - {k} && id != k && id in a {
      assert id in a - {k};
    }
  }

  /**
   * So on a service that de-duplicates, every well formed request with a new key can be booked, and delivered again can delete
   * the very meeting it booked.
   */
  lemma RedeliveryCanDelete(pre: State, connection: Connection, booking: Booking)
    requires Consistent(true, pre) && Ready(connection, booking) && IdempotencyKey(connection, booking.requestRef) !in pre.byKey
    ensures exists booked, m :: Possible(true, pre, booked, connection, booking, Ok(m))
                                && m.eventId in booked.live && CanLose(true, booked, connection, booking, m.eventId)
  {
    SuccessIsPossibleExactly(true, pre, connection, booking);
    var booked, m :| Possible(true, pre, booked, connection, booking, Ok(m));
    PossibleIsSaga(true, pre, booked, connection, booking, Ok(m));
    LossIsPossibleExactly(true, booked, connection, booking, m.eventId);
  }

  // ---- Whole runs ----

  /** One call as the host sees it: the service before and after, and the result. */
  datatype Call = Call(pre: State, post: State, result: Result<Meeting, Failure>)

  /** Calls for the same request, one after the other, with nobody else acting on the calendar in between. */
  ghost predicate IsRun(dedup: bool, calls: seq<Call>, key: string, invitees: seq<Invitee>) {
    && (forall k :: 0 <= k < |calls| ==>
          Consistent(dedup, calls[k].pre) && Saga(dedup, calls[k].pre, calls[k].post, key, invitees, calls[k].result))
    && (forall k :: 0 < k < |calls| ==> calls[k].pre == calls[k - 1].post)
  }

  predicate IsRetryable(r: Result<Meeting, Failure>) {
    r.Err? && r.error.kind == Retryable
  }

  /** The host retries exactly after Retryable results. */
  ghost predicate RetriedWhileRetryable(calls: seq<Call>) {
    forall k :: 0 <= k < |calls| - 1 ==> IsRetryable(calls[k].result)
  }

  /** One of the first `n` calls was rolled back. The host can read that off their codes. */
  predicate AnyRolledBack(calls: seq<Call>, n: nat)
    requires n <= |calls|
  {
    exists k :: 0 <= k < n && RolledBack(calls[k].result)
  }

  /** The calendar without the event of the key, if the service replays it. */
  ghost function Without(dedup: bool, s: State, key: string): map<EventId, Event> {
    if Replayed(dedup, s, key) then s.live - {s.byKey[key]} else s.live
  }

  /** Where `n` Retryable results leave the service: as it was, or with the event of the key gone. */
  ghost predicate Left(dedup: bool, first: State, now: State, key: string, rolledBack: bool) {
    && first.issued <= now.issued && (key in first.byKey ==> key in now.byKey)
    && (Replayed(dedup, first, key) ==> now.byKey == first.byKey)
    && (if rolledBack then now.live == Without(dedup, first, key) && Gone(now, key) else now == first)
  }

  lemma OneMoreRetryable(dedup: bool, first: State, call: Call, key: string, invitees: seq<Invitee>, rolledBack: bool)
    requires Consistent(dedup, first) && Left(dedup, first, call.pre, key, rolledBack) && Consistent(dedup, call.pre)
    requires Saga(dedup, call.pre, call.post, key, invitees, call.result) && IsRetryable(call.result)
    ensures Left(dedup, first, call.post, key, rolledBack || RolledBack(call.result))
  {
    var now := call.pre;
    if RolledBack(call.result) && rolledBack && Replayed(dedup, now, key) {
      assert now.live - {now.byKey[key]} == now.live;
    }
  }

  lemma {:induction false} RetriesLeave(dedup: bool, calls: seq<Call>, key: string, invitees: seq<Invitee>, n: nat)
    requires IsRun(dedup, calls, key, invitees) && n < |calls| && forall k :: 0 <= k < n ==> IsRetryable(calls[k].result)
    ensures Left(dedup, calls[0].pre, calls[n].pre, key, AnyRolledBack(calls, n))
    decreases n
  {
    if n > 0 {
      RetriesLeave(dedup, calls, key, invitees, n - 1);
      OneMoreRetryable(dedup, calls[0].pre, calls[n - 1], key, invitees, AnyRolledBack(calls, n - 1));
      assert calls[n].pre == calls[n - 1].post;
      assert AnyRolledBack(calls, n) <==> AnyRolledBack(calls, n - 1) || RolledBack(calls[n - 1].result);
    }
  }

  /**
   * What a run leaves behind, from the first state to the last, given its last result and whether any call was rolled back.
   * For a key the service does not replay: exactly the reported event more after success, nothing after Permanent or Retryable,
   * at most one event more after Uncertain. For a key it replays: after success the event stands and none was rolled back, after
   * Permanent or Retryable it is untouched, or deleted if some call was rolled back, and Uncertain leaves all others alone.
   */
  ghost predicate RunOutcome(dedup: bool, first: State, last: State, key: string, invitees: seq<Invitee>, rolledBack: bool,
                             r: Result<Meeting, Failure>) {
    match r
    case Ok(m) =>
      && Stands(last, invitees, m)
      && last.live == first.live[m.eventId := last.live[m.eventId]]
      && (if Replayed(dedup, first, key) then m.eventId == first.byKey[key] && m.eventId in first.live && !rolledBack
          else m.eventId !in first.live && (dedup ==> !rolledBack))
    case Err(e) =>
      if e.kind != Uncertain then last.live == if rolledBack then Without(dedup, first, key) else first.live
      else if Replayed(dedup, first, key) then last.live - {first.byKey[key]} == first.live - {first.byKey[key]}
      else last.live == first.live || exists id :: id !in first.live && id in last.live && last.live == first.live[id := last.live[id]]
  }

  lemma LastCall(dedup: bool, first: State, call: Call, key: string, invitees: seq<Invitee>, rolledBack: bool)
    requires Consistent(dedup, first) && Left(dedup, first, call.pre, key, rolledBack) && Consistent(dedup, call.pre)
    requires Saga(dedup, call.pre, call.post, key, invitees, call.result)
    ensures RunOutcome(dedup, first, call.post, key, invitees, rolledBack || RolledBack(call.result), call.result)
  {
    var now, post := call.pre, call.post;
    if Replayed(dedup, now, key) && rolledBack {
      assert now.live - {now.byKey[key]} == now.live;
    }
    match call.result
    case Ok(m) => LastSucceeds(dedup, first, now, post, key, invitees, rolledBack, m);
    case Err(e) =>
      if e.kind == Uncertain && !Replayed(dedup, first, key) && post.live != now.live {
        if !Replayed(dedup, now, key) {
          var id :| Added(now, post, key, id);
          assert id !in first.live;
        }
      }
  }

  lemma LastSucceeds(dedup: bool, first: State, now: State, post: State, key: string, invitees: seq<Invitee>, rolledBack: bool,
                     m: Meeting)
    requires Consistent(dedup, first) && Left(dedup, first, now, key, rolledBack) && Consistent(dedup, now)
    requires Saga(dedup, now, post, key, invitees, Ok(m))
    ensures RunOutcome(dedup, first, post, key, invitees, rolledBack, Ok(m))
  {
    var id := m.eventId;
    if Replayed(dedup, now, key) {
      assert post.live == (post.live - {id})[id := post.live[id]];
      assert now.live[id := post.live[id]] == (now.live - {id})[id := post.live[id]];
    }
  }

  /** Over any number of retries after Retryable results, whatever the key. */
  lemma RunIsSafe(dedup: bool, calls: seq<Call>, key: string, invitees: seq<Invitee>)
    requires IsRun(dedup, calls, key, invitees) && RetriedWhileRetryable(calls) && calls != []
    ensures var last := calls[|calls| - 1];
            RunOutcome(dedup, calls[0].pre, last.post, key, invitees, AnyRolledBack(calls, |calls|), last.result)
  {
    var n := |calls| - 1;
    RetriesLeave(dedup, calls, key, invitees, n);
    LastCall(dedup, calls[0].pre, calls[n], key, invitees, AnyRolledBack(calls, n));
    assert AnyRolledBack(calls, n + 1) <==> AnyRolledBack(calls, n) || RolledBack(calls[n].result);
  }

  /** So an event booked earlier is lost only by a rollback or in an Uncertain result, and survives every other failure. */
  lemma LostOnlyByRollback(dedup: bool, calls: seq<Call>, key: string, invitees: seq<Invitee>, id: EventId)
    requires IsRun(dedup, calls, key, invitees) && RetriedWhileRetryable(calls) && calls != []
    requires id in calls[0].pre.live && id !in calls[|calls| - 1].post.live
    ensures Replayed(dedup, calls[0].pre, key) && id == calls[0].pre.byKey[key]
    ensures AnyRolledBack(calls, |calls|)
            || (calls[|calls| - 1].result.Err? && calls[|calls| - 1].result.error.kind == Uncertain)
  {
    RunIsSafe(dedup, calls, key, invitees);
    var first, last := calls[0].pre, calls[|calls| - 1].post;
    if Replayed(dedup, first, key) {
      OthersStay(first.live, last.live, first.byKey[key], id);
    }
  }

  /**
   * Once a call was reported as rolled back, no later call for the request can succeed on a service that de-duplicates, whatever
   * results come in between: each fails and leaves the calendar alone.
   */
  lemma {:induction false} RetryAfterRollbackFails(calls: seq<Call>, key: string, invitees: seq<Invitee>, k: nat, n: nat)
    requires IsRun(true, calls, key, invitees) && k < n < |calls| && RolledBack(calls[k].result)
    ensures calls[n].result.Err? && calls[n].post.live == calls[k].post.live && Gone(calls[n].post, key)
    decreases n
  {
    assert calls[n].pre == calls[n - 1].post;
    if k < n - 1 {
      RetryAfterRollbackFails(calls, key, invitees, k, n - 1);
    }
    assert Saga(true, calls[n].pre, calls[n].post, key, invitees, calls[n].result);
  }

  /**
   * After any number of Retryable results for a new key, the next call can succeed exactly when the service does not
   * de-duplicate or none of the results carries the rollback code.
   */
  lemma RetryCanSucceedExactly(dedup: bool, calls: seq<Call>, connection: Connection, booking: Booking)
    requires Ready(connection, booking) && calls != [] && forall k :: 0 <= k < |calls| ==> IsRetryable(calls[k].result)
    requires IsRun(dedup, calls, IdempotencyKey(connection, booking.requestRef), NormalizedAll(booking.attendees))
    requires !Replayed(dedup, calls[0].pre, IdempotencyKey(connection, booking.requestRef))
    ensures CanSucceed(dedup, calls[|calls| - 1].post, connection, booking) <==> !dedup || !AnyRolledBack(calls, |calls|)
  {
    var key, invitees := IdempotencyKey(connection, booking.requestRef), NormalizedAll(booking.attendees);
    var n := |calls| - 1;
    RetriesLeave(dedup, calls, key, invitees, n);
    OneMoreRetryable(dedup, calls[0].pre, calls[n], key, invitees, AnyRolledBack(calls, n));
    assert AnyRolledBack(calls, n + 1) <==> AnyRolledBack(calls, n) || RolledBack(calls[n].result);
    SuccessIsPossibleExactly(dedup, calls[n].post, connection, booking);
  }

  /** Both sides happen, for every request and from every state that does not know its key. */
  lemma BothKindsOfRetryHappen(pre: State, connection: Connection, booking: Booking)
    requires Consistent(true, pre) && Ready(connection, booking) && IdempotencyKey(connection, booking.requestRef) !in pre.byKey
    ensures exists mid :: Possible(true, pre, mid, connection, booking, Err(Failure(Retryable, ROLLED_BACK)))
                          && !CanSucceed(true, mid, connection, booking)
    ensures exists mid :: Possible(true, pre, mid, connection, booking, Err(Failure(Retryable, HttpStatus(429))))
                          && CanSucceed(true, mid, connection, booking)
  {
    var key, invitees := IdempotencyKey(connection, booking.requestRef), NormalizedAll(booking.attendees);
    RollbackIsPossible(true, pre, connection, booking);
    RefusalIsPossible(true, pre, connection, booking);
    var rolledBack, refused := Err(Failure(Retryable, ROLLED_BACK)), Err(Failure(Retryable, HttpStatus(429)));
    var mid :| Possible(true, pre, mid, connection, booking, rolledBack);
    PossibleIsSaga(true, pre, mid, connection, booking, rolledBack);
    RetryCanSucceedExactly(true, [Call(pre, mid, rolledBack)], connection, booking);
    assert RolledBack([Call(pre, mid, rolledBack)][0].result);
    PossibleIsSaga(true, pre, pre, connection, booking, refused);
    RetryCanSucceedExactly(true, [Call(pre, pre, refused)], connection, booking);
  }

  const NOTHING := State(map[], {}, map[])

  const SOMEONE := Connection(true, true, "c", "UTC", "", "", "t", s => s, s => |s|)

  const SOMETHING := Booking(Some(0), Some(1), "", "r", "", "", [Attendee("a", "")])

  lemma SomeoneIsReady()
    ensures Ready(SOMEONE, SOMETHING)
  {
    TrimmedIsFixed("r");
    TrimmedIsFixed("a");
  }

  /** One request on an empty calendar, delivered twice: it is booked, and then its meeting is deleted. */
  lemma ConcreteRedelivery()
    ensures exists booked, m :: Possible(true, NOTHING, booked, SOMEONE, SOMETHING, Ok(m))
                                && m.eventId in booked.live && CanLose(true, booked, SOMEONE, SOMETHING, m.eventId)
  {
    SomeoneIsReady();
    RedeliveryCanDelete(NOTHING, SOMEONE, SOMETHING);
  }

  /** One request on an empty calendar: a rollback after which it can never succeed, and a refusal after which it can. */
  lemma ConcreteRetries()
    ensures exists mid :: Possible(true, NOTHING, mid, SOMEONE, SOMETHING, Err(Failure(Retryable, ROLLED_BACK)))
                          && !CanSucceed(true, mid, SOMEONE, SOMETHING)
    ensures exists mid :: Possible(true, NOTHING, mid, SOMEONE, SOMETHING, Err(Failure(Retryable, HttpStatus(429))))
                          && CanSucceed(true, mid, SOMEONE, SOMETHING)
  {
    SomeoneIsReady();
    BothKindsOfRetryHappen(NOTHING, SOMEONE, SOMETHING);
  }

  // ---- The host ----

  /** The results of the attempts: all but the last Retryable, and no more attempts than allowed. */
  predicate Attempts(results: seq<Result<Meeting, Failure>>, retries: nat) {
    && 0 < |results| <= retries + 1
    && (forall k :: 0 <= k < |results| - 1 ==> IsRetryable(results[k]))
    && (|results| == retries + 1 || !IsRetryable(results[|results| - 1]))
  }

  predicate AnyCode(results: seq<Result<Meeting, Failure>>) {
    exists k :: 0 <= k < |results| && RolledBack(results[k])
  }

  lemma AnyCodeSnoc(results: seq<Result<Meeting, Failure>>, r: Result<Meeting, Failure>)
    ensures AnyCode(results + [r]) <==> AnyCode(results) || RolledBack(r)
  {
    var longer := results + [r];
    assert longer[|results|] == r;
    assert forall k :: 0 <= k < |results| ==> longer[k] == results[k];
  }

  /**
   * A host that repeats a request at most `retries` times, exactly after Retryable results. Whether a call was rolled back is
   * what the codes of the results say.
   */
  method HostRetries(service: Service, connection: Connection, booking: Booking, retries: nat)
      returns (results: seq<Result<Meeting, Failure>>)
    requires service.Valid()
    modifies service
    ensures service.Valid() && Attempts(results, retries)
    ensures RunOutcome(service.dedup, old(service.state), service.state, IdempotencyKey(connection, booking.requestRef),
                       NormalizedAll(booking.attendees), AnyCode(results), results[|results| - 1])
  {
    ghost var key, invitees := IdempotencyKey(connection, booking.requestRef), NormalizedAll(booking.attendees);
    ghost var first := service.state;
    ghost var call: Call;
    var r;
    ghost var before: seq<Result<Meeting, Failure>> := [];
    r, call := HostCall(service, connection, booking);
    results := [r];
    assert before + [r] == results;
    while |results| <= retries && IsRetryable(r)
      invariant service.Valid() && call.post == service.state && call.result == r && Consistent(service.dedup, call.pre)
      invariant Saga(service.dedup, call.pre, call.post, key, invitees, r)
      invariant Left(service.dedup, first, call.pre, key, AnyCode(before))
      invariant results == before + [r] && |results| <= retries + 1 && forall k :: 0 <= k < |before| ==> IsRetryable(before[k])
      decreases retries + 1 - |results|
    {
      OneMoreRetryable(service.dedup, first, call, key, invitees, AnyCode(before));
      AnyCodeSnoc(before, r);
      before := results;
      r, call := HostCall(service, connection, booking);
      results := results + [r];
    }
    LastCall(service.dedup, first, call, key, invitees, AnyCode(before));
    AnyCodeSnoc(before, r);
  }

  /** One call, and what it amounts to. */
  method HostCall(service: Service, connection: Connection, booking: Booking)
      returns (r: Result<Meeting, Failure>, ghost call: Call)
    requires service.Valid()
    modifies service
    ensures service.Valid() && call == Call(old(service.state), service.state, r)
    ensures Saga(service.dedup, call.pre, call.post, IdempotencyKey(connection, booking.requestRef),
                 NormalizedAll(booking.attendees), r)
  {
    ghost var short, pre := service.log, service.state;
    r := CreateMeeting(service, connection, booking);
    TracedSince(service.dedup, short, service.log, service.initial, pre, service.state);
    ConversationIsSaga(service.dedup, pre, service.state, service.log, |short|, connection, booking, r);
    call := Call(pre, service.state, r);
  }
}
