/**
 * The dataset cache of the Holidays JP provider (providers/calendar/holidays_jp/provider.go:145-194) as concurrent callers see
 * it: the lock is held for the lookup and for the store, and released in between, so the steps of callers interleave freely.
 */
module HolidaysCache {
  import opened GoStrings
  import opened ConnectorErrors

  type Values = map<string, string>

  /** A cached dataset; the values are the contents of its map. */
  datatype Entry = Entry(expires: int, values: Values, version: string, sourceTime: string)

  type Cache = map<string, Entry>

  /** `values` is what the JSON decoder makes of the body, if it accepts it. */
  datatype Response = NoResponse | Response(status: int, tooLarge: bool, body: string, values: Option<Values>, lastModified: string)

  /** A successful response to a request for one cache key. */
  datatype Dataset = Dataset(key: string, values: Values, version: string, sourceTime: string)

  /** The two foreign functions: the hexadecimal SHA-256 and the RFC 3339 form of a time. */
  datatype Foreign = Foreign(digest: string -> string, format: int -> string)

  /** What a response is worth, `now` being the time it is looked at. */
  function Accept(f: Foreign, key: string, response: Response, now: int): Result<Dataset, Failure> {
    match response
    case NoResponse => Fail(Retryable, "unavailable")
    case Response(status, tooLarge, body, values, lastModified) =>
      if status == 429 then Fail(Retryable, "rate_limited")
      else if !Is2xx(status) then
        if 500 <= status then Fail(Retryable, "unavailable") else Fail(Permanent, "provider_rejected")
      else if tooLarge || values.None? then Fail(Permanent, "response_invalid")
      else Ok(Dataset(key, values.value, "sha256:" + f.digest(body), if lastModified != "" then lastModified else f.format(now)))
  }

  /**
   * A response is accepted exactly when it is a 2xx within the size limit whose body decodes, and then taken as it is, under the
   * digest of its body, and as old as it says or else as now.
   */
  lemma AcceptIsExact(f: Foreign, key: string, response: Response, now: int)
    ensures var r := Accept(f, key, response, now);
            && (r.Ok? <==> response.Response? && Is2xx(response.status) && !response.tooLarge && response.values.Some?)
            && (r.Ok? ==> r.value.key == key && Some(r.value.values) == response.values)
            && (r.Ok? ==> "sha256:" <= r.value.version && r.value.version[7..] == f.digest(response.body))
            && (r.Ok? && response.lastModified == "" ==> r.value.sourceTime == f.format(now))
            && (r.Ok? && response.lastModified != "" ==> r.value.sourceTime == response.lastModified)
            && (r.Err? && r.error.kind == Retryable <==>
                  response.NoResponse? || response.status == 429 || (500 <= response.status && !Is2xx(response.status)))
            && (r.Err? ==> r.error.kind != Uncertain)
  {
  }

  function Remember(d: Dataset, expires: int): Entry {
    Entry(expires, d.values, d.version, d.sourceTime)
  }

  /** The entry carries exactly what the response delivered, for the same key. */
  predicate From(e: Entry, key: string, d: Dataset) {
    d.key == key && e.values == d.values && e.version == d.version && e.sourceTime == d.sourceTime
  }

  // ---- The machine ----

  /** Where a caller is. `ttl` is in the clock's unit. */
  datatype Caller =
    | Idle
    | Looking(key: string, ttl: int)
    | Looked(key: string, ttl: int, item: Option<Entry>)
    | Fetching(key: string, ttl: int)
    | Fetched(dataset: Dataset, ttl: int)

  datatype Hit = Hit(key: string, entry: Entry, at: int)

  /** `responses` and `hits` record, in order, what the source delivered and what was answered from the cache. */
  datatype State = State(cache: Cache, clock: int, callers: map<nat, Caller>, responses: seq<Dataset>, hits: seq<Hit>)

  datatype Action =
    | Tick(clock: int)
    | Start(c: nat, key: string, ttl: int)
    | Lookup(c: nat)
    | Check(c: nat)
    | Respond(c: nat, response: Response)
    | Store(c: nat)

  function At(s: State, c: nat): Caller {
    if c in s.callers then s.callers[c] else Idle
  }

  function Move(s: State, c: nat, to: Caller): State {
    s.(callers := s.callers[c := to])
  }

  /** One atomic step; an action that does not fit the caller's position does nothing. */
  function Next(f: Foreign, s: State, a: Action): State {
    match a
    case Tick(clock) => if s.clock <= clock then s.(clock := clock) else s
    case Start(c, key, ttl) =>
      if At(s, c) != Idle then s else Move(s, c, if 0 < ttl then Looking(key, ttl) else Fetching(key, ttl))
    case Lookup(c) =>
      (match At(s, c)
       case Looking(key, ttl) => Move(s, c, Looked(key, ttl, if key in s.cache then Some(s.cache[key]) else None))
       case _ => s)
    case Check(c) =>
      (match At(s, c)
       case Looked(key, ttl, item) =>
         if item.Some? && s.clock < item.value.expires then Move(s, c, Idle).(hits := s.hits + [Hit(key, item.value, s.clock)])
         else Move(s, c, Fetching(key, ttl))
       case _ => s)
    case Respond(c, response) =>
      (match At(s, c)
       case Fetching(key, ttl) =>
         (match Accept(f, key, response, s.clock)
          case Err(_) => Move(s, c, Idle)
          case Ok(d) => Move(s, c, Fetched(d, ttl)).(responses := s.responses + [d]))
       case _ => s)
    case Store(c) =>
      (match At(s, c)
       case Fetched(d, ttl) =>
         if 0 < ttl then Move(s, c, Idle).(cache := s.cache[d.key := Remember(d, s.clock + ttl)]) else Move(s, c, Idle)
       case _ => s)
  }

  function Run(f: Foreign, s: State, actions: seq<Action>): State {
    if actions == [] then s else Next(f, Run(f, s, actions[..|actions| - 1]), actions[|actions| - 1])
  }

  const INITIAL := State(map[], 0, map[], [], [])

  // ---- One call by itself ----

  /** The times one call reads from the clock: at the hit check, when the response has arrived, and at the store. */
  datatype Times = Times(check: int, arrival: int, store: int)

  predicate IsHit(cache: Cache, key: string, ttl: int, now: int) {
    0 < ttl && key in cache && now < cache[key].expires
  }

  /** The cache after a fetch that nobody interrupts. */
  function AfterFetch(f: Foreign, cache: Cache, key: string, ttl: int, arrival: int, response: Response, store: int): Cache {
    match Accept(f, key, response, arrival)
    case Err(_) => cache
    case Ok(d) => if 0 < ttl then cache[key := Remember(d, store + ttl)] else cache
  }

  /** The cache after a whole call that nobody interrupts. */
  function AfterCall(f: Foreign, cache: Cache, key: string, ttl: int, times: Times, response: Response): Cache {
    if IsHit(cache, key, ttl, times.check) then cache
    else AfterFetch(f, cache, key, ttl, times.arrival, response, times.store)
  }

  /** What a caller gets to see. */
  datatype Reply = Reply(values: Values, version: string, sourceTime: string, status: string)

  /** The reply of such a call. */
  function ReplyOf(f: Foreign, cache: Cache, key: string, ttl: int, times: Times, response: Response): Result<Reply, Failure> {
    if IsHit(cache, key, ttl, times.check) then
      Ok(Reply(cache[key].values, cache[key].version, cache[key].sourceTime, "cache_hit"))
    else
      match Accept(f, key, response, times.arrival)
      case Err(e) => Err(e)
      case Ok(d) => Ok(Reply(d.values, d.version, d.sourceTime, "live"))
  }

  /** Its steps; those that do not fit, because the call was a hit or failed, do nothing. */
  function Steps(c: nat, key: string, ttl: int, times: Times, response: Response): seq<Action> {
    [Start(c, key, ttl), Lookup(c), Tick(times.check), Check(c)]
    + [Tick(times.arrival), Respond(c, response), Tick(times.store), Store(c)]
  }

  lemma RunSnoc(f: Foreign, s: State, actions: seq<Action>, a: Action)
    ensures Run(f, s, actions + [a]) == Next(f, Run(f, s, actions), a)
  {
    assert (actions + [a])[..|actions|] == actions;
  }

  lemma RunOfFour(f: Foreign, s: State, a1: Action, a2: Action, a3: Action, a4: Action)
    ensures Run(f, s, [a1, a2, a3, a4]) == Next(f, Next(f, Next(f, Next(f, s, a1), a2), a3), a4)
  {
    RunSnoc(f, s, [], a1);
    RunSnoc(f, s, [a1], a2);
    RunSnoc(f, s, [a1, a2], a3);
    RunSnoc(f, s, [a1, a2, a3], a4);
    assert [] + [a1] == [a1] && [a1] + [a2] == [a1, a2] && [a1, a2] + [a3] == [a1, a2, a3]
           && [a1, a2, a3] + [a4] == [a1, a2, a3, a4];
  }

  lemma {:induction false} RunCompose(f: Foreign, s: State, a: seq<Action>, b: seq<Action>)
    ensures Run(f, s, a + b) == Run(f, Run(f, s, a), b)
  {
    if b == [] {
      assert a + b == a;
    } else {
      RunCompose(f, s, a, b[..|b| - 1]);
      assert (a + b)[..|a + b| - 1] == a + b[..|b| - 1];
    }
  }

  /** Up to the check: a hit is answered, and otherwise the caller goes on to fetch. */
  lemma FirstHalf(f: Foreign, s: State, c: nat, key: string, ttl: int, now: int)
    requires At(s, c) == Idle && s.clock <= now
    ensures var t := Run(f, s, [Start(c, key, ttl), Lookup(c), Tick(now), Check(c)]);
            && t.cache == s.cache && t.clock == now
            && (if IsHit(s.cache, key, ttl, now) then At(t, c) == Idle && t.hits == s.hits + [Hit(key, s.cache[key], now)]
                else At(t, c) == Fetching(key, ttl) && t.hits == s.hits)
  {
    RunOfFour(f, s, Start(c, key, ttl), Lookup(c), Tick(now), Check(c));
  }

  lemma SecondHalf(f: Foreign, s: State, c: nat, arrival: int, response: Response, store: int)
    requires (At(s, c).Idle? || At(s, c).Fetching?) && s.clock <= arrival <= store
    ensures var t := Run(f, s, [Tick(arrival), Respond(c, response), Tick(store), Store(c)]);
            && At(t, c) == Idle && t.hits == s.hits
            && (At(s, c).Idle? ==> t.cache == s.cache)
            && (At(s, c).Fetching? ==>
                  t.cache == AfterFetch(f, s.cache, At(s, c).key, At(s, c).ttl, arrival, response, store))
  {
    RunOfFour(f, s, Tick(arrival), Respond(c, response), Tick(store), Store(c));
  }

  /** A caller that nobody interrupts takes the steps of the machine, one after the other. */
  lemma CallIsSteps(f: Foreign, s: State, c: nat, key: string, ttl: int, times: Times, response: Response)
    requires At(s, c) == Idle && s.clock <= times.check <= times.arrival <= times.store
    ensures var t := Run(f, s, Steps(c, key, ttl, times, response));
            && At(t, c) == Idle && t.cache == AfterCall(f, s.cache, key, ttl, times, response)
            && t.hits == if IsHit(s.cache, key, ttl, times.check) then s.hits + [Hit(key, s.cache[key], times.check)] else s.hits
  {
    FirstHalf(f, s, c, key, ttl, times.check);
    var first := [Start(c, key, ttl), Lookup(c), Tick(times.check), Check(c)];
    var second := [Tick(times.arrival), Respond(c, response), Tick(times.store), Store(c)];
    SecondHalf(f, Run(f, s, first), c, times.arrival, response, times.store);
    RunCompose(f, s, first, second);
  }

  /**
   * What a call has stored is what the next one for the key is answered with, up to its time to live after the store and no
   * longer; a call without a time to live neither stores nor hits.
   */
  lemma NextCallHits(f: Foreign, cache: Cache, key: string, ttl: int, times: Times, response: Response,
                     ttl': int, times': Times, response': Response)
    requires Accept(f, key, response, times.arrival).Ok? && !IsHit(cache, key, ttl, times.check)
    ensures var after := AfterCall(f, cache, key, ttl, times, response);
            var reply, next := Accept(f, key, response, times.arrival).value, ReplyOf(f, after, key, ttl', times', response');
            && ReplyOf(f, cache, key, ttl, times, response) == Ok(Reply(reply.values, reply.version, reply.sourceTime, "live"))
            && (0 < ttl && 0 < ttl' && times'.check < times.store + ttl ==>
                  next == Ok(Reply(reply.values, reply.version, reply.sourceTime, "cache_hit")))
            && (ttl' <= 0 || (0 < ttl && times.store + ttl <= times'.check) ==> next.Ok? ==> next.value.status == "live")
            && (ttl <= 0 ==> after == cache)
  {
  }

  // ---- What every run keeps ----

  ghost predicate Delivered(responses: seq<Dataset>, key: string, e: Entry) {
    exists i :: 0 <= i < |responses| && From(e, key, responses[i])
  }

  /** Cached entries, entries in a caller's hands and recorded hits all stem from a response for their key. */
  ghost predicate Sourced(s: State) {
    && (forall key :: key in s.cache ==> Delivered(s.responses, key, s.cache[key]))
    && (forall c :: c in s.callers && s.callers[c].Looked? && s.callers[c].item.Some? ==>
          Delivered(s.responses, s.callers[c].key, s.callers[c].item.value))
    && (forall c :: c in s.callers && s.callers[c].Fetched? ==> s.callers[c].dataset in s.responses)
    && (forall h :: h in s.hits ==> Delivered(s.responses, h.key, h.entry) && h.at < h.entry.expires && h.at <= s.clock)
  }

  lemma DeliveredMonotone(responses: seq<Dataset>, d: Dataset, key: string, e: Entry)
    requires Delivered(responses, key, e)
    ensures Delivered(responses + [d], key, e)
  {
    var i :| 0 <= i < |responses| && From(e, key, responses[i]);
    assert (responses + [d])[i] == responses[i];
  }

  lemma ResponseKeepsSourced(s: State, t: State, d: Dataset, c: nat, ttl: int)
    requires Sourced(s) && t == Move(s, c, Fetched(d, ttl)).(responses := s.responses + [d])
    ensures Sourced(t)
  {
    forall key, e | Delivered(s.responses, key, e)
      ensures Delivered(t.responses, key, e)
    {
      DeliveredMonotone(s.responses, d, key, e);
    }
  }

  lemma StoreKeepsSourced(s: State, t: State, d: Dataset, c: nat, expires: int)
    requires Sourced(s) && d in s.responses && t == Move(s, c, Idle).(cache := s.cache[d.key := Remember(d, expires)])
    ensures Sourced(t)
  {
    var i :| 0 <= i < |s.responses| && s.responses[i] == d;
    assert From(t.cache[d.key], d.key, s.responses[i]);
  }

  lemma StepKeepsSourced(f: Foreign, s: State, a: Action)
    requires Sourced(s)
    ensures Sourced(Next(f, s, a))
  {
    var t := Next(f, s, a);
    if a.Respond? && At(s, a.c).Fetching? {
      var at := At(s, a.c);
      var accepted := Accept(f, at.key, a.response, s.clock);
      if accepted.Ok? {
        ResponseKeepsSourced(s, t, accepted.value, a.c, at.ttl);
      }
    } else if a.Store? && At(s, a.c).Fetched? && 0 < At(s, a.c).ttl {
      StoreKeepsSourced(s, t, At(s, a.c).dataset, a.c, s.clock + At(s, a.c).ttl);
    }
  }

  lemma {:induction false} RunIsSourced(f: Foreign, actions: seq<Action>)
    ensures Sourced(Run(f, INITIAL, actions))
  {
    if actions != [] {
      RunIsSourced(f, actions[..|actions| - 1]);
      StepKeepsSourced(f, Run(f, INITIAL, actions[..|actions| - 1]), actions[|actions| - 1]);
    }
  }

  /**
   * Cache agreement: in whatever way the steps of the callers interleave, each answer from the cache is one that the source
   * delivered before, for the same key, and was given before the entry expired.
   */
  lemma HitsAgreeWithSource(f: Foreign, actions: seq<Action>, a: Action)
    ensures var s := Run(f, INITIAL, actions); var t := Run(f, INITIAL, actions + [a]);
            && s.hits <= t.hits && |t.hits| <= |s.hits| + 1
            && (|s.hits| < |t.hits| ==>
                  var h := t.hits[|s.hits|];
                  && h.at == s.clock < h.entry.expires
                  && exists i :: 0 <= i < |s.responses| && From(h.entry, h.key, s.responses[i]))
  {
    var s := Run(f, INITIAL, actions);
    RunIsSourced(f, actions);
    assert (actions + [a])[..|actions|] == actions;
  }

  /** Only the store of a caller with a positive time to live changes the cache, and only at its own key. */
  lemma OnlyStoresChangeTheCache(f: Foreign, s: State, a: Action)
    ensures var t := Next(f, s, a);
            t.cache != s.cache ==> && a.Store? && At(s, a.c).Fetched? && 0 < At(s, a.c).ttl
                                   && t.cache == s.cache[At(s, a.c).dataset.key := t.cache[At(s, a.c).dataset.key]]
  {
  }

  /** Every entry expires within `ttl` of the present, wherever it is, and every recorded hit within `ttl` of its own time. */
  ghost predicate Bounded(s: State, ttl: int) {
    && (forall key :: key in s.cache ==> s.cache[key].expires <= s.clock + ttl)
    && (forall c :: c in s.callers && s.callers[c].Looked? && s.callers[c].item.Some? ==>
          s.callers[c].item.value.expires <= s.clock + ttl)
    && (forall c :: c in s.callers && !s.callers[c].Idle? ==> s.callers[c].ttl <= ttl)
    && (forall h :: h in s.hits ==> h.entry.expires <= h.at + ttl)
  }

  lemma StepKeepsBounded(f: Foreign, s: State, a: Action, ttl: int)
    requires Bounded(s, ttl) && (a.Start? ==> a.ttl <= ttl)
    ensures Bounded(Next(f, s, a), ttl)
  {
  }

  /** With every time to live at most `ttl`, that holds in every run: no hit returns an entry that lives longer than that. */
  lemma {:induction false} HitsAreFresh(f: Foreign, actions: seq<Action>, ttl: int)
    requires forall k :: 0 <= k < |actions| && actions[k].Start? ==> actions[k].ttl <= ttl
    ensures Bounded(Run(f, INITIAL, actions), ttl)
  {
    if actions != [] {
      var init, last := actions[..|actions| - 1], actions[|actions| - 1];
      assert forall k :: 0 <= k < |init| ==> init[k] == actions[k];
      HitsAreFresh(f, init, ttl);
      StepKeepsBounded(f, Run(f, INITIAL, init), last, ttl);
    }
  }
}
