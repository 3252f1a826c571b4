/**
 * What one call of the Feishu meeting saga leaves behind (providers/appointment_scheduling/feishu_calendar/provider.go:156-216),
 * derived from its conversation and from what the service does in each exchange.
 */
module FeishuSaga {
  import opened GoStrings
  import opened ConnectorErrors
  import opened FeishuService
  import opened FeishuCalendar
  import opened FeishuConversation

  /** Nothing but event `id` may differ. */
  ghost predicate OnlyTouches(pre: State, post: State, id: EventId) {
    post.live - {id} == pre.live - {id}
  }

  /** One more event than before, created for `key`. */
  ghost predicate Added(pre: State, post: State, key: string, id: EventId) {
    id !in pre.issued && id in post.live && post.live[id].key == key && post.live == pre.live[id := post.live[id]]
  }

  /** The service answers this key with an event it created earlier. */
  ghost predicate Replayed(dedup: bool, s: State, key: string) {
    dedup && key in s.byKey
  }

  /** The event of this key is gone. */
  ghost predicate Gone(s: State, key: string) {
    key in s.byKey && s.byKey[key] !in s.live
  }

  predicate RolledBack(r: Result<Meeting, Failure>) {
    r.Err? && r.error.code == ROLLED_BACK
  }

  /** What a meeting that was reported as created looks like on the service. */
  ghost predicate Stands(post: State, invitees: seq<Invitee>, m: Meeting) {
    && m.eventId in post.live && m.joinUrl != "" && m.attendees == invitees
    && post.live[m.eventId].attendees == Some(invitees) && post.live[m.eventId].url == m.joinUrl
  }

  /**
   * What one call guarantees. A failure that is neither Uncertain nor a rollback changes nothing at all. For a key the service
   * does not replay, success leaves exactly one more event, a rollback none but remembers the deleted one under the key, and
   * Uncertain at most one. For a replayed key only the event of that key can have changed: success leaves it standing, a
   * rollback deletes it, and if it was gone before, the call fails.
   */
  ghost predicate Saga(dedup: bool, pre: State, post: State, key: string, invitees: seq<Invitee>, r: Result<Meeting, Failure>) {
    && Consistent(dedup, post) && pre.issued <= post.issued
    && (key in pre.byKey ==> key in post.byKey)
    && (r.Ok? ==> Stands(post, invitees, r.value))
    && (RolledBack(r) ==> r.error.kind != Uncertain && Gone(post, key))
    && (r.Err? && r.error.kind != Uncertain && !RolledBack(r) ==> post == pre)
    && (if Replayed(dedup, pre, key) then
          var id := pre.byKey[key];
          && OnlyTouches(pre, post, id) && post.byKey == pre.byKey
          && (r.Ok? ==> r.value.eventId == id && id in pre.live && pre.live[id].url == r.value.joinUrl)
          && (RolledBack(r) ==> post.live == pre.live - {id})
          && (id !in pre.live ==> post.live == pre.live)
        else
          && (post.byKey == pre.byKey || (key in post.byKey && post.byKey[key] !in pre.issued))
          && (r.Ok? ==> Added(pre, post, key, r.value.eventId))
          && (RolledBack(r) ==> post.live == pre.live)
          && (r.Err? ==> post.live == pre.live || exists id :: Added(pre, post, key, id)))
  }

  // ---- From the creation on ----

  /** Where a call stands once the service has answered the creation with event `id`, whatever happened to its attendees. */
  ghost predicate Made(dedup: bool, pre: State, now: State, key: string, id: EventId) {
    && Consistent(dedup, now)
    && (if Replayed(dedup, pre, key) then
          && id == pre.byKey[key] && OnlyTouches(pre, now, id) && (id in now.live <==> id in pre.live)
          && (id in pre.live ==> now.live[id].url == pre.live[id].url)
          && now.byKey == pre.byKey && now.issued == pre.issued
        else
          && Added(pre, now, key, id)
          && now.byKey == pre.byKey[key := id] && now.issued == pre.issued + {id})
  }

  lemma CreatedIsMade(dedup: bool, pre: State, now: State, key: string, id: EventId)
    requires Consistent(dedup, pre) && Consistent(dedup, now) && Created(dedup, pre, key, id, now)
    ensures Made(dedup, pre, now, key, id)
  {
  }

  lemma InvitedIsMade(dedup: bool, pre: State, now: State, key: string, id: EventId, invitees: seq<Invitee>)
    requires Made(dedup, pre, now, key, id) && id in now.live && Consistent(dedup, Invited(now, id, invitees))
    ensures Made(dedup, pre, Invited(now, id, invitees), key, id)
  {
  }

  /** Deleting the event brings back what was live before, except that a replayed key can lose an older event. */
  lemma DeletedIsRolledBack(dedup: bool, pre: State, now: State, post: State, key: string, id: EventId)
    requires Consistent(dedup, pre) && Made(dedup, pre, now, key, id) && post == now.(live := now.live - {id})
    ensures if Replayed(dedup, pre, key) then post.live == pre.live - {id} && (id !in pre.live ==> post.live == pre.live)
            else post.live == pre.live
  {
    if Replayed(dedup, pre, key) {
      assert post.live == now.live - {id} == pre.live - {id};
      if id !in pre.live {
        assert pre.live - {id} == pre.live;
      }
    } else {
      assert now.live - {id} == pre.live - {id} == pre.live;
    }
  }

  lemma DeletionIsSaga(dedup: bool, pre: State, now: State, post: State, key: string, id: EventId, invitees: seq<Invitee>,
                       error: Failure)
    requires Consistent(dedup, pre) && Made(dedup, pre, now, key, id) && Consistent(dedup, post)
    requires post == now.(live := now.live - {id}) && (error.code == ROLLED_BACK <==> error.kind != Uncertain)
    ensures Saga(dedup, pre, post, key, invitees, Err(error))
  {
    DeletedIsRolledBack(dedup, pre, now, post, key, id);
  }

  /** The event may be there or not: the result is Uncertain. */
  lemma OpenIsSaga(dedup: bool, pre: State, now: State, key: string, id: EventId, invitees: seq<Invitee>, error: Failure)
    requires Consistent(dedup, pre) && Made(dedup, pre, now, key, id)
    requires error.kind == Uncertain && error.code != ROLLED_BACK
    ensures Saga(dedup, pre, now, key, invitees, Err(error))
  {
    if Replayed(dedup, pre, key) {
      assert id !in now.live ==> now.live - {id} == now.live;
      assert id !in pre.live ==> pre.live - {id} == pre.live;
    } else {
      assert Added(pre, now, key, id);
    }
  }

  lemma UnchangedIsSaga(dedup: bool, pre: State, key: string, invitees: seq<Invitee>, error: Failure)
    requires Consistent(dedup, pre) && error.code != ROLLED_BACK
    ensures Saga(dedup, pre, pre, key, invitees, Err(error))
  {
  }

  lemma CodesDiffer()
    ensures Named("compensation_failed") != ROLLED_BACK && Named("event_response_invalid") != ROLLED_BACK
    ensures Named("endpoint_invalid") != ROLLED_BACK && Named("primary_calendar_unavailable") != ROLLED_BACK
    ensures Named("credentials_required") != ROLLED_BACK && Named("token_configuration_invalid") != ROLLED_BACK
  {
    assert |"meeting_creation_rolled_back"| == 28;
    assert "primary_calendar_unavailable"[0] != "meeting_creation_rolled_back"[0];
  }

  lemma InputCodesDiffer(booking: Booking)
    requires BookingFault(booking).Some?
    ensures BookingFault(booking).value.code != ROLLED_BACK && BookingFault(booking).value.kind == Permanent
  {
    assert |"meeting_creation_rolled_back"| == 28;
  }

  lemma ReplyCodesDiffer(reply: Reply, write: bool)
    ensures Classify(reply, write).Err? ==> Classify(reply, write).error.code != ROLLED_BACK
    ensures ClassifyToken(reply).Err? ==> ClassifyToken(reply).error.code != ROLLED_BACK
  {
    assert |"meeting_creation_rolled_back"| == 28;
  }

  lemma CompensationIsSaga(dedup: bool, pre: State, now: State, post: State, log: seq<Exchange>, n: nat, token: string,
                           calendar: string, key: string, id: EventId, cause: Kind, invitees: seq<Invitee>, error: Failure)
    requires Consistent(dedup, pre) && Made(dedup, pre, now, key, id)
    requires Compensates(log, n, token, calendar, id, cause, error) && Traced(dedup, log, n, now, post)
    ensures Saga(dedup, pre, post, key, invitees, Err(error))
  {
    TracedTail(dedup, log, n, now, post);
    ClassificationIsExact(log[n].reply);
    CodesDiffer();
    if post == now.(live := now.live - {id}) {
      DeletionIsSaga(dedup, pre, now, post, key, id, invitees, error);
    } else {
      OpenIsSaga(dedup, pre, now, key, id, invitees, error);
    }
  }

  /** After the invitation, whatever became of it. */
  lemma InvitationKeepsMade(dedup: bool, pre: State, now: State, after: State, key: string, calendar: string, id: EventId,
                            invitees: seq<Invitee>, reply: Reply)
    requires Made(dedup, pre, now, key, id) && Consistent(dedup, after)
    requires Serves(dedup, now, AddAttendees(calendar, id, invitees), reply, after)
    ensures Made(dedup, pre, after, key, id)
    ensures Succeeded(reply) ==> id in after.live && after.live[id].attendees == Some(invitees)
  {
    if after != now {
      InvitedIsMade(dedup, pre, now, key, id, invitees);
    }
  }

  lemma StandingIsSaga(dedup: bool, pre: State, now: State, key: string, id: EventId, url: string, invitees: seq<Invitee>)
    requires Consistent(dedup, pre) && Made(dedup, pre, now, key, id)
    requires id in now.live && now.live[id].attendees == Some(invitees) && now.live[id].url == url != ""
    ensures Saga(dedup, pre, now, key, invitees, Ok(Meeting(id, url, invitees)))
  {
  }

  lemma CompletionIsSaga(dedup: bool, pre: State, now: State, post: State, log: seq<Exchange>, n: nat, token: string,
                         calendar: string, key: string, id: EventId, invitees: seq<Invitee>, r: Result<Meeting, Failure>)
    requires Consistent(dedup, pre) && Made(dedup, pre, now, key, id)
    requires CompletionSteps(log, n, token, calendar, id, invitees, r) && Traced(dedup, log, n, now, post)
    ensures Saga(dedup, pre, post, key, invitees, r)
  {
    TracedTail(dedup, log, n, now, post);
    var invited := log[n].after;
    InvitationKeepsMade(dedup, pre, now, invited, key, calendar, id, invitees, log[n].reply);
    ClassificationIsExact(log[n].reply);
    var first := Classify(log[n].reply, true);
    if first.Err? {
      CompensationIsSaga(dedup, pre, invited, post, log, n + 1, token, calendar, key, id, first.error.kind, invitees, r.error);
    } else {
      TracedTail(dedup, log, n + 1, invited, post);
      ClassificationIsExact(log[n + 1].reply);
      ReadIsSaga(dedup, pre, invited, post, log, n + 1, token, calendar, key, id, invitees, r);
    }
  }

  lemma ReadIsSaga(dedup: bool, pre: State, now: State, post: State, log: seq<Exchange>, n: nat, token: string,
                   calendar: string, key: string, id: EventId, invitees: seq<Invitee>, r: Result<Meeting, Failure>)
    requires Consistent(dedup, pre) && Made(dedup, pre, now, key, id) && Traced(dedup, log, n, now, post)
    requires id in now.live && now.live[id].attendees == Some(invitees)
    requires Sent(log, n, token, GetEvent(calendar, id)) && log[n].after == now
    requires match Classify(log[n].reply, false)
             case Err(e) => r.Err? && Compensates(log, n + 1, token, calendar, id, e.kind, r.error)
             case Ok(body) =>
               if body.meetingUrl == "" then r.Err? && Compensates(log, n + 1, token, calendar, id, Permanent, r.error)
               else |log| == n + 1 && r == Ok(Meeting(id, body.meetingUrl, invitees))
    ensures Saga(dedup, pre, post, key, invitees, r)
  {
    TracedTail(dedup, log, n, now, post);
    ClassificationIsExact(log[n].reply);
    var read := Classify(log[n].reply, false);
    if read.Err? {
      CompensationIsSaga(dedup, pre, now, post, log, n + 1, token, calendar, key, id, read.error.kind, invitees, r.error);
    } else if read.value.meetingUrl == "" {
      CompensationIsSaga(dedup, pre, now, post, log, n + 1, token, calendar, key, id, Permanent, invitees, r.error);
    } else {
      StandingIsSaga(dedup, pre, now, key, id, read.value.meetingUrl, invitees);
    }
  }

  lemma FailedCreationIsSaga(dedup: bool, pre: State, post: State, key: string, invitees: seq<Invitee>, error: Failure)
    requires Consistent(dedup, pre) && Consistent(dedup, post) && error.code != ROLLED_BACK
    requires post == pre || (error.kind == Uncertain && exists id :: Created(dedup, pre, key, id, post))
    ensures Saga(dedup, pre, post, key, invitees, Err(error))
  {
    if post == pre {
      UnchangedIsSaga(dedup, pre, key, invitees, error);
    } else {
      var id :| Created(dedup, pre, key, id, post);
      CreatedIsMade(dedup, pre, post, key, id);
      OpenIsSaga(dedup, pre, post, key, id, invitees, error);
    }
  }

  lemma CreationIsSaga(dedup: bool, pre: State, post: State, log: seq<Exchange>, n: nat, valid: bool, token: string,
                       calendar: string, order: Order, r: Result<Meeting, Failure>)
    requires Consistent(dedup, pre) && Traced(dedup, log, n, pre, post)
    requires CreationSteps(log, n, valid, token, calendar, order, r)
    ensures Saga(dedup, pre, post, order.key, order.invitees, r)
  {
    CodesDiffer();
    if !valid {
      UnchangedIsSaga(dedup, pre, order.key, order.invitees, r.error);
    } else {
      TracedTail(dedup, log, n, pre, post);
      var now, reply := log[n].after, log[n].reply;
      ClassificationIsExact(reply);
      ReplyCodesDiffer(reply, true);
      if reply.Reply? && Succeeded(reply) && reply.body.eventId != "" {
        CreatedIsMade(dedup, pre, now, order.key, reply.body.eventId);
        CompletionIsSaga(dedup, pre, now, post, log, n + 1, token, calendar, order.key, reply.body.eventId, order.invitees, r);
      } else {
        FailedCreationIsSaga(dedup, pre, post, order.key, order.invitees, r.error);
      }
    }
  }

  // ---- The whole call ----

  /** The steps before the creation change nothing. */
  lemma TokenKeepsState(dedup: bool, pre: State, post: State, log: seq<Exchange>, n: nat, next: nat, connection: Connection,
                        r: Result<string, Failure>)
    requires TokenSteps(log, n, next, connection, r) && Traced(dedup, log, n, pre, post)
    ensures next <= |log| && Traced(dedup, log, next, pre, post)
    ensures r.Err? ==> r.error.code != ROLLED_BACK
  {
    CodesDiffer();
    if next == n + 1 {
      TracedTail(dedup, log, n, pre, post);
      ReplyCodesDiffer(log[n].reply, false);
    }
  }

  lemma CalendarKeepsState(dedup: bool, pre: State, post: State, log: seq<Exchange>, n: nat, next: nat, token: string,
                           connection: Connection, r: Result<string, Failure>)
    requires CalendarSteps(log, n, next, token, connection, r) && Traced(dedup, log, n, pre, post)
    ensures next <= |log| && Traced(dedup, log, next, pre, post)
    ensures r.Err? ==> r.error.code != ROLLED_BACK
  {
    CodesDiffer();
    if next == n + 1 {
      TracedTail(dedup, log, n, pre, post);
      ReplyCodesDiffer(log[n].reply, false);
    }
  }

  lemma AfterCalendarIsSaga(dedup: bool, pre: State, post: State, log: seq<Exchange>, n: nat, valid: bool, order: Order,
                            token: string, calendar: Result<string, Failure>, r: Result<Meeting, Failure>)
    requires Consistent(dedup, pre) && Traced(dedup, log, n, pre, post)
    requires calendar.Err? ==> calendar.error.code != ROLLED_BACK
    requires AfterCalendar(log, n, valid, order, token, calendar, r)
    ensures Saga(dedup, pre, post, order.key, order.invitees, r)
  {
    if calendar.Err? {
      UnchangedIsSaga(dedup, pre, order.key, order.invitees, calendar.error);
    } else {
      CreationIsSaga(dedup, pre, post, log, n, valid, token, calendar.value, order, r);
    }
  }

  lemma AfterTokenIsSaga(dedup: bool, pre: State, post: State, log: seq<Exchange>, n: nat, connection: Connection, order: Order,
                         token: Result<string, Failure>, r: Result<Meeting, Failure>)
    requires Consistent(dedup, pre) && Traced(dedup, log, n, pre, post)
    requires token.Err? ==> token.error.code != ROLLED_BACK
    requires AfterToken(log, n, connection, order, token, r)
    ensures Saga(dedup, pre, post, order.key, order.invitees, r)
  {
    if token.Err? {
      UnchangedIsSaga(dedup, pre, order.key, order.invitees, token.error);
    } else {
      var calendar, next: nat :| CalendarSteps(log, n, next, token.value, connection, calendar)
                                 && AfterCalendar(log, next, connection.endpointValid, order, token.value, calendar, r);
      CalendarKeepsState(dedup, pre, post, log, n, next, token.value, connection, calendar);
      AfterCalendarIsSaga(dedup, pre, post, log, next, connection.endpointValid, order, token.value, calendar, r);
    }
  }

  /** Every call that takes the service from `pre` to `post` in some conversation keeps the saga's promise. */
  lemma ConversationIsSaga(dedup: bool, pre: State, post: State, log: seq<Exchange>, n: nat, connection: Connection,
                           booking: Booking, r: Result<Meeting, Failure>)
    requires Consistent(dedup, pre) && Traced(dedup, log, n, pre, post) && Conversation(log, n, connection, booking, r)
    ensures Saga(dedup, pre, post, IdempotencyKey(connection, booking.requestRef), NormalizedAll(booking.attendees), r)
  {
    var order := OrderOf(connection, booking);
    if BookingFault(booking).Some? {
      InputCodesDiffer(booking);
      UnchangedIsSaga(dedup, pre, order.key, order.invitees, r.error);
    } else {
      var token, next: nat :| TokenSteps(log, n, next, connection, token) && AfterToken(log, next, connection, order, token, r);
      TokenKeepsState(dedup, pre, post, log, n, next, connection, token);
      AfterTokenIsSaga(dedup, pre, post, log, next, connection, order, token, r);
    }
  }

  // ---- Different bookings ----

  /** A call leaves every event made for another key as it was, and adds none for another key. */
  lemma OthersUntouched(dedup: bool, pre: State, post: State, key: string, invitees: seq<Invitee>, r: Result<Meeting, Failure>)
    requires Consistent(dedup, pre) && Saga(dedup, pre, post, key, invitees, r)
    ensures forall id :: id in pre.live && pre.live[id].key != key ==> id in post.live && post.live[id] == pre.live[id]
    ensures forall id :: id in post.live && post.live[id].key != key ==> id in pre.live && pre.live[id] == post.live[id]
  {
    if Replayed(dedup, pre, key) {
      OnlyOneTouched(pre, post, pre.byKey[key]);
    } else if r.Ok? {
      assert Added(pre, post, key, r.value.eventId);
    } else if post.live != pre.live {
      var id :| Added(pre, post, key, id);
    }
  }

  lemma OnlyOneTouched(pre: State, post: State, id: EventId)
    requires OnlyTouches(pre, post, id)
    ensures forall other :: other in pre.live && other != id ==> other in post.live && post.live[other] == pre.live[other]
    ensures forall other :: other in post.live && other != id ==> other in pre.live && post.live[other] == pre.live[other]
  {
    forall other | other != id
      ensures other in pre.live ==> other in post.live && post.live[other] == pre.live[other]
      ensures other in post.live ==> other in pre.live && post.live[other] == pre.live[other]
    {
      assert other in pre.live - {id} <==> other in post.live - {id};
      if other in pre.live - {id} {
        assert (pre.live - {id})[other] == (post.live - {id})[other];
      }
    }
  }

  /** A call that succeeds leaves its event under its own key. */
  lemma MeetingHasKey(dedup: bool, pre: State, post: State, key: string, invitees: seq<Invitee>, r: Result<Meeting, Failure>)
    requires Consistent(dedup, pre) && Saga(dedup, pre, post, key, invitees, r) && r.Ok?
    ensures r.value.eventId in post.live && post.live[r.value.eventId].key == key
  {
  }

  lemma KeysAreApart(dedup: bool, s0: State, s1: State, s2: State, key: string, key': string, m: Meeting, r: Result<Meeting, Failure>,
                     invitees: seq<Invitee>, invitees': seq<Invitee>)
    requires Consistent(dedup, s0) && Consistent(dedup, s1) && key != key'
    requires Saga(dedup, s0, s1, key, invitees, Ok(m)) && Saga(dedup, s1, s2, key', invitees', r)
    ensures m.eventId in s1.live && m.eventId in s2.live && s2.live[m.eventId] == s1.live[m.eventId]
    ensures r.Ok? ==> r.value.eventId != m.eventId
  {
    MeetingHasKey(dedup, s0, s1, key, invitees, Ok(m));
    OthersUntouched(dedup, s1, s2, key', invitees', r);
    if r.Ok? {
      MeetingHasKey(dedup, s1, s2, key', invitees', r);
    }
  }

  /**
   * Two bookings whose references do not coincide, on a digest that does not collide on them: once the first is booked, no call
   * for the second, whatever comes of it, touches its event, and none creates an event under its key.
   */
  lemma BookingsAreApart(dedup: bool, s0: State, s1: State, s2: State, log: seq<Exchange>, n: nat, log': seq<Exchange>, n': nat,
                         connection: Connection, a: Booking, b: Booking, m: Meeting, r: Result<Meeting, Failure>,
                         s: string, t: string)
    requires Consistent(dedup, s0) && Consistent(dedup, s1)
    requires Traced(dedup, log, n, s0, s1) && Conversation(log, n, connection, a, Ok(m))
    requires Traced(dedup, log', n', s1, s2) && Conversation(log', n', connection, b, r)
    requires IsTrimOf(s, a.requestRef) && IsTrimOf(t, b.requestRef) && !Coincide(connection, s, t)
    requires FitsAsKey(connection, connection.digest(s)) && FitsAsKey(connection, connection.digest(t))
    requires connection.digest(s) == connection.digest(t) ==> s == t
    ensures m.eventId in s1.live && m.eventId in s2.live && s2.live[m.eventId] == s1.live[m.eventId]
    ensures r.Ok? ==> r.value.eventId != m.eventId
    ensures CreateUnderDifferentKeys(log, n, log', n')
  {
    KeysAgreeExactly(connection, a.requestRef, b.requestRef, s, t);
    ConversationIsSaga(dedup, s0, s1, log, n, connection, a, Ok(m));
    ConversationIsSaga(dedup, s1, s2, log', n', connection, b, r);
    KeysAreApart(dedup, s0, s1, s2, IdempotencyKey(connection, a.requestRef), IdempotencyKey(connection, b.requestRef), m, r,
                 NormalizedAll(a.attendees), NormalizedAll(b.attendees));
    ConversationAsks(log, n, connection, a, Ok(m));
    ConversationAsks(log', n', connection, b, r);
    OrdersUnderDifferentKeys(log, n, log', n', OrderOf(connection, a), OrderOf(connection, b));
  }

  ghost predicate CreateUnderDifferentKeys(log: seq<Exchange>, n: nat, log': seq<Exchange>, n': nat) {
    forall k, l :: n <= k < |log| && n' <= l < |log'| && log[k].request.CreateEvent? && log'[l].request.CreateEvent? ==>
      log[k].request.key != log'[l].request.key
  }

  lemma OrdersUnderDifferentKeys(log: seq<Exchange>, n: nat, log': seq<Exchange>, n': nat, order: Order, order': Order)
    requires AsksFor(log, n, order) && AsksFor(log', n', order') && order.key != order'.key
    ensures CreateUnderDifferentKeys(log, n, log', n')
  {
  }
}
