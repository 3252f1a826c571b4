/**
 * The remote calendar as the Feishu provider sees it (providers/appointment_scheduling/feishu_calendar/provider.go): which
 * events are live, what a reply may say, and what a reply allows one to conclude. Replies are arbitrary within that.
 */
module FeishuService {
  import opened GoStrings
  import opened ConnectorErrors

  type EventId = string

  datatype Invitee = ThirdParty(email: string) | User(userId: string)

  datatype Event = Event(key: string, attendees: Option<seq<Invitee>>, url: string)

  /** What a new event is about; times in seconds since the epoch. */
  datatype Details = Details(summary: string, description: string, start: int, end: int, zone: string)

  datatype CalendarEntry = CalendarEntry(id: string, role: string, deleted: bool)

  /** The facts the provider reads out of a JSON body; absent fields are empty. `code` is what `intValue` makes of it. */
  datatype Body = Body(code: int, eventId: string, meetingUrl: string, token: string, calendars: seq<CalendarEntry>)

  datatype Reply = NoReply | Reply(status: int, validJson: bool, body: Body)

  datatype Request =
    | TenantToken(appId: string, appSecret: string)
    | PrimaryCalendar
    | CreateEvent(calendar: string, key: string, details: Details)
    | AddAttendees(calendar: string, id: EventId, invitees: seq<Invitee>)
    | GetEvent(calendar: string, id: EventId)
    | DeleteEvent(calendar: string, id: EventId)

  predicate Succeeded(reply: Reply) {
    reply.Reply? && Is2xx(reply.status) && reply.validJson && reply.body.code == 0
  }

  /** The rejections that mean nothing was applied. */
  predicate Rejected(reply: Reply) {
    && reply.Reply?
    && (|| reply.status == 429
        || (!Is2xx(reply.status) && reply.status != 408 && reply.status < 500)
        || (Is2xx(reply.status) && reply.validJson && reply.body.code != 0))
  }

  /**
   * `issued` holds every identity ever given out, `byKey` the event created for each idempotency key. A service that
   * de-duplicates answers a repeated key with the event it created first, be it still live or not.
   */
  datatype State = State(live: map<EventId, Event>, issued: set<EventId>, byKey: map<string, EventId>)

  ghost predicate Consistent(dedup: bool, s: State) {
    && s.live.Keys <= s.issued && s.byKey.Values <= s.issued && "" !in s.issued
    && (dedup ==> forall id :: id in s.live ==> s.live[id].key in s.byKey && s.byKey[s.live[id].key] == id)
    && (forall key :: key in s.byKey && s.byKey[key] in s.live ==> s.live[s.byKey[key]].key == key)
  }

  predicate Created(dedup: bool, pre: State, key: string, id: EventId, post: State) {
    if dedup && key in pre.byKey then id == pre.byKey[key] && post == pre
    else
      && id !in pre.issued && id != "" && id in post.live
      && post == State(pre.live[id := Event(key, None, post.live[id].url)], pre.issued + {id}, pre.byKey[key := id])
  }

  function Invited(pre: State, id: EventId, invitees: seq<Invitee>): State
    requires id in pre.live
  {
    pre.(live := pre.live[id := pre.live[id].(attendees := Some(invitees))])
  }

  /**
   * One exchange. A rejection applies nothing, a success applies the request, and anything else (no reply, 408, 5xx, a 2xx
   * that is not JSON or does not name the created event) leaves it open. Only live events can be invited to or read.
   */
  predicate Serves(dedup: bool, pre: State, request: Request, reply: Reply, post: State) {
    match request
    case TenantToken(_, _) => post == pre
    case PrimaryCalendar => post == pre
    case CreateEvent(_, key, _) =>
      if Rejected(reply) then post == pre
      else if Succeeded(reply) && reply.body.eventId != "" then Created(dedup, pre, key, reply.body.eventId, post)
      else post == pre || exists id | id in post.issued :: Created(dedup, pre, key, id, post)
    case AddAttendees(_, id, invitees) =>
      if Rejected(reply) then post == pre
      else if Succeeded(reply) then id in pre.live && post == Invited(pre, id, invitees)
      else post == pre || (id in pre.live && post == Invited(pre, id, invitees))
    case GetEvent(_, id) =>
      && post == pre
      && (Succeeded(reply) && reply.body.meetingUrl != "" ==> id in pre.live && pre.live[id].url == reply.body.meetingUrl)
    case DeleteEvent(_, id) =>
      if Rejected(reply) then post == pre
      else if Succeeded(reply) then post == pre.(live := pre.live - {id})
      else post == pre || post == pre.(live := pre.live - {id})
  }

  lemma ServesKeepsConsistent(dedup: bool, pre: State, request: Request, reply: Reply, post: State)
    requires Consistent(dedup, pre) && Serves(dedup, pre, request, reply, post)
    ensures Consistent(dedup, post)
    ensures pre.issued <= post.issued
  {
    if request.CreateEvent? && post != pre {
      var id :| id in post.issued && Created(dedup, pre, request.key, id, post);
      CreatedKeepsConsistent(dedup, pre, request.key, id, post);
    }
  }

  lemma CreatedKeepsConsistent(dedup: bool, pre: State, key: string, id: EventId, post: State)
    requires Consistent(dedup, pre) && Created(dedup, pre, key, id, post)
    ensures Consistent(dedup, post)
  {
    if post != pre {
      assert post.byKey.Values <= pre.byKey.Values + {id};
    }
  }

  // ---- Exchanges ----

  /** One request as it was sent, with its bearer token, its reply, and the service before and after. */
  datatype Exchange = Exchange(bearer: string, request: Request, reply: Reply, before: State, after: State)

  ghost predicate Served(dedup: bool, e: Exchange) {
    Serves(dedup, e.before, e.request, e.reply, e.after)
  }

  /** From entry `n` on, the exchanges take the service from `pre` to `post`. */
  ghost predicate Traced(dedup: bool, log: seq<Exchange>, n: nat, pre: State, post: State) {
    && n <= |log|
    && (if n == |log| then post == pre else log[n].before == pre && log[|log| - 1].after == post)
    && (forall k :: n <= k < |log| ==> Served(dedup, log[k]))
    && (forall k :: n < k < |log| ==> log[k].before == log[k - 1].after)
  }

  lemma TracedTail(dedup: bool, log: seq<Exchange>, n: nat, pre: State, post: State)
    requires Traced(dedup, log, n, pre, post) && n < |log|
    ensures Serves(dedup, pre, log[n].request, log[n].reply, log[n].after)
    ensures Traced(dedup, log, n + 1, log[n].after, post)
    ensures Consistent(dedup, pre) ==> Consistent(dedup, log[n].after) && pre.issued <= log[n].after.issued
  {
    assert Served(dedup, log[n]);
    if Consistent(dedup, pre) {
      ServesKeepsConsistent(dedup, pre, log[n].request, log[n].reply, log[n].after);
    }
  }

  lemma TracedSnoc(dedup: bool, log: seq<Exchange>, pre: State, e: Exchange)
    requires Traced(dedup, log, 0, pre, e.before) && Served(dedup, e)
    ensures Traced(dedup, log + [e], 0, pre, e.after)
  {
  }

  /** A trace that grew, seen from where it was. */
  lemma TracedSince(dedup: bool, short: seq<Exchange>, log: seq<Exchange>, initial: State, pre: State, post: State)
    requires Traced(dedup, short, 0, initial, pre) && Traced(dedup, log, 0, initial, post) && short <= log
    ensures Traced(dedup, log, |short|, pre, post)
  {
    if short != [] {
      assert log[|short| - 1] == short[|short| - 1];
    }
  }

  /** The transport and the service behind it; `log` lists the exchanges since `initial` in order. */
  class Service {
    const dedup: bool
    const initial: State
    var state: State
    var log: seq<Exchange>

    ghost predicate Valid()
      reads this
    {
      Consistent(dedup, state) && Traced(dedup, log, 0, initial, state)
    }

    constructor (dedup: bool)
      ensures Valid() && this.dedup == dedup && state == State(map[], {}, map[]) && log == []
    {
      this.dedup := dedup;
      initial := State(map[], {}, map[]);
      state := State(map[], {}, map[]);
      log := [];
    }

    /** Answers in any way `Serves` allows. */
    method RoundTrip(bearer: string, request: Request) returns (reply: Reply)
      requires Valid()
      modifies this
      ensures Valid()
      ensures log == old(log) + [Exchange(bearer, request, reply, old(state), state)]
    {
      var answer: Reply := *;
      var next: State := *;
      ghost var pre := state;
      if !Serves(dedup, state, request, answer, next) {
        answer, next := NoReply, state;
      }
      ServesKeepsConsistent(dedup, state, request, answer, next);
      TracedSnoc(dedup, log, initial, Exchange(bearer, request, answer, state, next));
      log := log + [Exchange(bearer, request, answer, state, next)];
      reply, state := answer, next;
    }
  }
}
