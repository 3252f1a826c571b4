/**
 * The Holidays JP provider as an object (providers/calendar/holidays_jp/provider.go:66-72, 145-194, 245-251): its cache holds
 * references to maps, so what matters is that no such map is ever shared with a caller.
 */
module HolidaysProvider {
  import opened GoStrings
  import opened ConnectorErrors
  import opened HolidaysCache

  /** A Go map on the heap. */
  class Table {
    var entries: Values

    constructor ()
      ensures entries == map[]
    {
      entries := map[];
    }
  }

  datatype CachedDataset = CachedDataset(expires: int, values: Table, version: string, sourceTime: string)

  datatype Answer = Answer(values: Table, version: string, sourceTime: string, status: string)

  /** An answer as it looks now. */
  ghost function Seen(r: Result<Answer, Failure>): Result<Reply, Failure>
    reads if r.Ok? then {r.value.values} else {}
  {
    match r
    case Err(e) => Err(e)
    case Ok(a) => Ok(Reply(a.values.entries, a.version, a.sourceTime, a.status))
  }

  /** The map a response decodes to. */
  method Decoded(values: Values) returns (table: Table)
    ensures fresh(table) && table.entries == values
  {
    table := new Table();
    table.entries := values;
  }

  method CloneDataset(values: Table) returns (clone: Table)
    ensures fresh(clone) && clone.entries == values.entries
  {
    clone := new Table();
    var keys := values.entries.Keys;
    while keys != {}
      invariant keys <= values.entries.Keys
      invariant clone.entries == map k | k in values.entries && k !in keys :: values.entries[k]
      modifies clone
      decreases keys
    {
      var key :| key in keys;
      clone.entries := clone.entries[key := values.entries[key]];
      keys := keys - {key};
    }
  }

  class Provider {
    var cache: map<string, CachedDataset>

    /** The maps the cache refers to. */
    ghost function Owned(): set<Table>
      reads this
    {
      set key | key in cache :: cache[key].values
    }

    /** No two keys share a map, so writing one entry's map would change that entry only. */
    ghost predicate Valid()
      reads this
    {
      forall k1, k2 :: k1 in cache && k2 in cache && k1 != k2 ==> cache[k1].values != cache[k2].values
    }

    /** The cache as a value. */
    ghost function Contents(): Cache
      reads this, Owned()
    {
      map key | key in cache ::
        Entry(cache[key].expires, cache[key].values.entries, cache[key].version, cache[key].sourceTime)
    }

    constructor ()
      ensures Valid() && Contents() == map[] && Owned() == {}
    {
      cache := map[];
    }

    /** The step under the first lock and the check after it: a hit is handed out as a copy. */
    method Lookup(key: string, now: int) returns (hit: Option<Answer>)
      requires Valid()
      ensures hit.Some? <==> key in Contents() && now < Contents()[key].expires
      ensures hit.Some? ==>
                var e := Contents()[key];
                fresh(hit.value.values) && Seen(Ok(hit.value)) == Ok(Reply(e.values, e.version, e.sourceTime, "cache_hit"))
    {
      if key !in cache {
        return None;
      }
      var item := cache[key];
      if now < item.expires {
        var copy := CloneDataset(item.values);
        return Some(Answer(copy, item.version, item.sourceTime, "cache_hit"));
      }
      return None;
    }

    /** The step under the second lock: what is kept is a copy. */
    method Store(key: string, values: Table, version: string, sourceTime: string, expires: int)
      requires Valid()
      modifies this
      ensures Valid() && fresh(Owned() - old(Owned())) && values.entries == old(values.entries)
      ensures old(Contents()).Keys + {key} == Contents().Keys
      ensures Contents() == old(Contents())[key := Entry(expires, values.entries, version, sourceTime)]
    {
      var copy := CloneDataset(values);
      cache := cache[key := CachedDataset(expires, copy, version, sourceTime)];
    }

    /** The path past the cache: judge the response, keep a copy, hand out the original. */
    method Live(f: Foreign, key: string, ttl: int, times: Times, response: Response) returns (r: Result<Answer, Failure>)
      requires Valid()
      modifies this
      ensures Valid() && fresh(Owned() - old(Owned()))
      ensures Contents() == AfterFetch(f, old(Contents()), key, ttl, times.arrival, response, times.store)
      ensures r.Ok? ==> fresh(r.value.values) && r.value.values !in Owned()
      ensures match Accept(f, key, response, times.arrival)
              case Err(e) => r == Err(e)
              case Ok(d) => Seen(r) == Ok(Reply(d.values, d.version, d.sourceTime, "live"))
    {
      var accepted := Accept(f, key, response, times.arrival);
      if accepted.Err? {
        return Err(accepted.error);
      }
      var d := accepted.value;
      var values := Decoded(d.values);
      if 0 < ttl {
        Store(key, values, d.version, d.sourceTime, times.store + ttl);
      }
      return Ok(Answer(values, d.version, d.sourceTime, "live"));
    }

    /**
     * One call on its own: its reply and the cache afterwards are those of the machine. The map it returns, on a hit or live, is
     * one the cache does not refer to.
     */
    method Dataset(f: Foreign, key: string, ttl: int, times: Times, response: Response) returns (r: Result<Answer, Failure>)
      requires Valid()
      modifies this
      ensures Valid() && fresh(Owned() - old(Owned()))
      ensures r.Ok? ==> fresh(r.value.values) && r.value.values !in Owned()
      ensures Contents() == AfterCall(f, old(Contents()), key, ttl, times, response)
      ensures Seen(r) == ReplyOf(f, old(Contents()), key, ttl, times, response)
    {
      if 0 < ttl {
        var hit := Lookup(key, times.check);
        if hit.Some? {
          return Ok(hit.value);
        }
      }
      r := Live(f, key, ttl, times, response);
    }
  }

  // ---- Aliasing ----

  /** Writing to any map the cache does not refer to, such as every map ever returned, leaves the cache as it was. */
  twostate lemma WritesElsewhereAreHarmless(p: Provider, t: Table)
    requires old(p.Valid()) && t !in old(p.Owned())
    requires p.cache == old(p.cache) && forall o: Table :: o in old(p.Owned()) ==> o.entries == old(o.entries)
    ensures p.Valid() && p.Contents() == old(p.Contents())
  {
  }

  /** And writing to one it does refer to changes the entry of one key only. */
  twostate lemma WritesTouchOneEntry(p: Provider, key: string)
    requires old(p.Valid()) && key in old(p.cache)
    requires p.cache == old(p.cache)
    requires forall o: Table :: o in old(p.Owned()) && o != old(p.cache)[key].values ==> o.entries == old(o.entries)
    ensures p.Contents() == old(p.Contents())[key := p.Contents()[key]]
  {
    forall k | k in p.cache && k != key
      ensures p.cache[k].values.entries == old(p.cache[k].values.entries)
    {
      assert p.cache[k].values in old(p.Owned());
    }
  }

  datatype Request = Request(key: string, ttl: int, times: Times, response: Response)

  /** The cache after a sequence of calls, as a value. */
  function CacheAfter(f: Foreign, cache: Cache, calls: seq<Request>): Cache {
    if calls == [] then cache
    else
      var c := calls[|calls| - 1];
      AfterCall(f, CacheAfter(f, cache, calls[..|calls| - 1]), c.key, c.ttl, c.times, c.response)
  }

  /** Their replies, as values. */
  function Replies(f: Foreign, cache: Cache, calls: seq<Request>): seq<Result<Reply, Failure>> {
    if calls == [] then []
    else
      var before, c := calls[..|calls| - 1], calls[|calls| - 1];
      Replies(f, cache, before) + [ReplyOf(f, CacheAfter(f, cache, before), c.key, c.ttl, c.times, c.response)]
  }

  /** Writes anything to any of the maps. */
  method Scribble(tables: set<Table>)
    modifies tables
  {
    var left := tables;
    while left != {}
      invariant left <= tables
      decreases left
    {
      var t :| t in left;
      t.entries := *;
      left := left - {t};
    }
  }

  /** One call, after which the caller overwrites whatever it likes of the maps it has been given. */
  method CallOnce(p: Provider, f: Foreign, c: Request, given: set<Table>)
      returns (reply: Result<Reply, Failure>, given': set<Table>)
    requires p.Valid() && given !! p.Owned()
    modifies p, given
    ensures p.Valid() && given' !! p.Owned() && fresh(given' - given) && fresh(p.Owned() - old(p.Owned()))
    ensures p.Contents() == AfterCall(f, old(p.Contents()), c.key, c.ttl, c.times, c.response)
    ensures reply == ReplyOf(f, old(p.Contents()), c.key, c.ttl, c.times, c.response)
  {
    var r := p.Dataset(f, c.key, c.ttl, c.times, c.response);
    given' := given;
    match r {
      case Err(e) =>
        reply := Err(e);
      case Ok(a) =>
        reply := Ok(Reply(a.values.entries, a.version, a.sourceTime, a.status));
        given' := given' + {a.values};
    }
    Scribble(given');
  }

  /**
   * A caller that makes any sequence of calls and, after each of them, overwrites whatever it likes of all the maps it has been
   * given so far: every reply, and the cache at the end, are what they would be without that.
   */
  method CallAndScribble(p: Provider, f: Foreign, calls: seq<Request>) returns (replies: seq<Result<Reply, Failure>>)
    requires p.Valid()
    modifies p
    ensures p.Valid() && p.Contents() == CacheAfter(f, old(p.Contents()), calls)
    ensures replies == Replies(f, old(p.Contents()), calls)
  {
    ghost var initial := p.Contents();
    var given: set<Table> := {};
    replies := [];
    for k := 0 to |calls|
      invariant p.Valid() && p.Contents() == CacheAfter(f, initial, calls[..k])
      invariant replies == Replies(f, initial, calls[..k])
      invariant fresh(given) && given !! p.Owned()
      modifies p, given
    {
      assert calls[..k + 1][..k] == calls[..k];
      var reply;
      reply, given := CallOnce(p, f, calls[k], given);
      replies := replies + [reply];
    }
    assert calls[..|calls|] == calls;
  }
}
