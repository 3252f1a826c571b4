/**
 * The Holidays JP provider with its callers interleaved on the heap (providers/calendar/holidays_jp/provider.go:145-194): the map
 * of a cached item is copied only after the lock is released, so a store can come between the lookup and the copy. Whatever
 * the order of the steps, and whatever callers write to the maps they were given, the provider behaves as the machine does.
 */
module HolidaysInterleaved {
  import opened GoStrings
  import opened ConnectorErrors
  import opened HolidaysCache
  import opened HolidaysProvider

  /** Where a caller is, with the references it holds: the item it looked up, or the map it decoded. */
  datatype Stage =
    | Resting
    | Asking(key: string, ttl: int)
    | InHand(key: string, ttl: int, item: Option<CachedDataset>)
    | Requesting(key: string, ttl: int)
    | Arrived(key: string, ttl: int, values: Table, version: string, sourceTime: string)

  type Stages = map<nat, Stage>

  ghost function TablesOf(stage: Stage): set<Table> {
    match stage
    case InHand(_, _, Some(item)) => {item.values}
    case Arrived(_, _, values, _, _) => {values}
    case _ => {}
  }

  /** The maps that callers hold and have not been given. */
  ghost function Held(stages: Stages): set<Table> {
    set c, t | c in stages && t in TablesOf(stages[c]) :: t
  }

  /** The maps that callers decoded themselves. */
  ghost function Own(stages: Stages): set<Table> {
    set c | c in stages && stages[c].Arrived? :: stages[c].values
  }

  /** A stage as a value. */
  ghost function ViewOf(stage: Stage): Caller
    reads TablesOf(stage)
  {
    match stage
    case Resting => Idle
    case Asking(key, ttl) => Looking(key, ttl)
    case InHand(key, ttl, None) => Looked(key, ttl, None)
    case InHand(key, ttl, Some(item)) =>
      Looked(key, ttl, Some(Entry(item.expires, item.values.entries, item.version, item.sourceTime)))
    case Requesting(key, ttl) => Fetching(key, ttl)
    case Arrived(key, ttl, values, version, sourceTime) =>
      Fetched(HolidaysCache.Dataset(key, values.entries, version, sourceTime), ttl)
  }

  ghost function View(stages: Stages): map<nat, Caller>
    reads Held(stages)
  {
    map c | c in stages :: ViewOf(stages[c])
  }

  /** What is held looks the same as long as nobody writes to it. */
  twostate lemma ViewKept(stages: Stages)
    requires forall t :: t in Held(stages) ==> t.entries == old(t.entries)
    ensures View(stages) == old(View(stages))
  {
    forall c | c in stages
      ensures ViewOf(stages[c]) == old(ViewOf(stages[c]))
    {
      assert TablesOf(stages[c]) <= Held(stages);
    }
  }

  /** So does the cache. */
  twostate lemma ContentsKept(provider: Provider)
    requires provider.cache == old(provider.cache) && forall t :: t in old(provider.Owned()) ==> t.entries == old(t.entries)
    ensures provider.Owned() == old(provider.Owned()) && provider.Contents() == old(provider.Contents())
  {
  }

  lemma ViewMoved(stages: Stages, c: nat, to: Stage)
    ensures View(stages[c := to]) == View(stages)[c := ViewOf(to)]
  {
  }

  /**
   * Maps that were given out are neither cached nor held, and a map that a caller decoded is its own until it is given out.
   */
  ghost predicate Separate(stages: Stages, owned: set<Table>, given: set<Table>) {
    && given !! owned && given !! Held(stages)
    && (forall c :: c in stages && stages[c].Arrived? ==> stages[c].values !in owned)
    && (forall c, d :: c in stages && d in stages && c != d && stages[c].Arrived? ==> stages[c].values !in TablesOf(stages[d]))
  }

  /** A caller moves on with nothing in hand, with a cached map, or with a new one. */
  lemma MoveKeepsSeparate(stages: Stages, owned: set<Table>, given: set<Table>, c: nat, to: Stage)
    requires Separate(stages, owned, given)
    requires if to.Arrived? then to.values !in owned + given + Held(stages) else TablesOf(to) <= owned
    ensures Separate(stages[c := to], owned, given)
  {
    var moved := stages[c := to];
    forall d | d in moved && moved[d].Arrived?
      ensures moved[d].values !in owned
      ensures forall e :: e in moved && e != d ==> moved[d].values !in TablesOf(moved[e])
    {
      if d != c {
        assert moved[d].values in TablesOf(stages[d]);
        assert moved[d].values in Held(stages);
      }
    }
    forall t | t in Held(moved)
      ensures t !in given
    {
      var d :| d in moved && t in TablesOf(moved[d]);
      assert d != c ==> t in Held(stages);
    }
  }

  /** A caller is given its own map. */
  lemma GiftKeepsSeparate(stages: Stages, owned: set<Table>, given: set<Table>, c: nat)
    requires Separate(stages, owned, given) && c in stages && stages[c].Arrived?
    ensures Separate(stages[c := Resting], owned, given + {stages[c].values})
  {
    MoveKeepsSeparate(stages, owned, given, c, Resting);
    var moved := stages[c := Resting];
    forall t | t in Held(moved)
      ensures t != stages[c].values
    {
      var d :| d in moved && t in TablesOf(moved[d]);
      assert d != c;
    }
  }

  /** Maps that nobody knew before may be cached or given out. */
  lemma NewKeepsSeparate(stages: Stages, owned: set<Table>, owned': set<Table>, given: set<Table>, given': set<Table>)
    requires Separate(stages, owned, given) && given <= given'
    requires (owned' - owned) !! given && (owned' - owned) !! Held(stages)
    requires (given' - given) !! owned' && (given' - given) !! Held(stages)
    ensures Separate(stages, owned', given')
  {
    forall c | c in stages && stages[c].Arrived?
      ensures stages[c].values in Held(stages)
    {
      assert stages[c].values in TablesOf(stages[c]);
    }
  }

  // ---- What is answered ----

  /** The reply that a step of the machine gives, if any. */
  function Answered(s: State, a: Action): seq<Reply> {
    match a
    case Check(c) =>
      (match At(s, c)
       case Looked(_, _, Some(e)) =>
         if s.clock < e.expires then [Reply(e.values, e.version, e.sourceTime, "cache_hit")] else []
       case _ => [])
    case Store(c) =>
      (match At(s, c)
       case Fetched(d, _) => [Reply(d.values, d.version, d.sourceTime, "live")]
       case _ => [])
    case _ => []
  }

  function Answers(f: Foreign, s: State, actions: seq<Action>): seq<Reply> {
    if actions == [] then []
    else
      var n := |actions| - 1;
      Answers(f, s, actions[..n]) + Answered(Run(f, s, actions[..n]), actions[n])
  }

  // ---- The callers ----

  /** The callers of one provider. `given` are the maps that were handed out. */
  class Callers {
    const provider: Provider
    var clock: int
    var stages: Stages
    var given: set<Table>
    var responses: seq<HolidaysCache.Dataset>
    var hits: seq<Hit>

    ghost predicate Valid()
      reads this, provider
    {
      provider.Valid() && Separate(stages, provider.Owned(), given)
    }

    ghost function Abstract(): State
      reads this, provider, provider.Owned(), Held(stages)
    {
      State(provider.Contents(), clock, View(stages), responses, hits)
    }

    constructor (provider: Provider)
      requires provider.Valid()
      ensures Valid() && this.provider == provider && given == {}
      ensures Abstract() == State(provider.Contents(), 0, map[], [], [])
    {
      this.provider := provider;
      clock, stages, given, responses, hits := 0, map[], {}, [], [];
    }

    /** The maps that were given out, or will be. */
    ghost function Mine(): set<Table>
      reads this
    {
      given + Own(stages)
    }

    function Where(c: nat): Stage
      reads this
    {
      if c in stages then stages[c] else Resting
    }

    /** A caller that holds nothing new moves on. */
    method Move(c: nat, to: Stage)
      requires Valid()
      requires if to.Arrived? then to.values !in provider.Owned() + given + Held(stages) else TablesOf(to) <= provider.Owned()
      modifies this`stages
      ensures Valid() && stages == old(stages)[c := to]
      ensures Mine() <= old(Mine()) + TablesOf(to)
      ensures View(stages) == old(View(stages))[c := ViewOf(to)] && provider.Contents() == old(provider.Contents())
    {
      MoveKeepsSeparate(stages, provider.Owned(), given, c, to);
      ViewMoved(stages, c, to);
      stages := stages[c := to];
    }

    method BeginCall(f: Foreign, c: nat, key: string, ttl: int)
      requires Valid()
      modifies this
      ensures Valid() && fresh(Mine() - old(Mine()))
      ensures Abstract() == Next(f, old(Abstract()), Start(c, key, ttl))
    {
      if Where(c) == Resting {
        Move(c, if 0 < ttl then Asking(key, ttl) else Requesting(key, ttl));
      }
    }

    /** The cached item, as it is in hand. */
    method TakeInHand(c: nat, key: string, ttl: int)
      requires Valid()
      modifies this`stages
      ensures Valid() && Mine() <= old(Mine())
      ensures var cache := provider.Contents();
              View(stages) == old(View(stages))[c := Looked(key, ttl, if key in cache then Some(cache[key]) else None)]
    {
      var item := if key in provider.cache then Some(provider.cache[key]) else None;
      assert item.Some? ==> item.value.values in provider.Owned();
      Move(c, InHand(key, ttl, item));
    }

    /** Under the first lock: the caller takes the item, and with it a reference to the cached map. */
    method TakeItem(f: Foreign, c: nat)
      requires Valid()
      modifies this
      ensures Valid() && fresh(Mine() - old(Mine()))
      ensures Abstract() == Next(f, old(Abstract()), Lookup(c))
    {
      ghost var s := Abstract();
      assert At(s, c) == ViewOf(Where(c));
      match Where(c)
      case Asking(key, ttl) =>
        TakeInHand(c, key, ttl);
      case _ =>
    }

    /** A caller is given a map that nobody else knows. */
    method GiveNew(c: nat, copy: Table)
      requires Valid() && copy !in provider.Owned() + Held(stages)
      modifies this`stages, this`given
      ensures Valid() && Mine() <= old(Mine()) + {copy}
      ensures View(stages) == old(View(stages))[c := Idle] && provider.Contents() == old(provider.Contents())
    {
      NewKeepsSeparate(stages, provider.Owned(), provider.Owned(), given, given + {copy});
      MoveKeepsSeparate(stages, provider.Owned(), given + {copy}, c, Resting);
      ViewMoved(stages, c, Resting);
      given, stages := given + {copy}, stages[c := Resting];
    }

    /** A hit: the map of the item in hand is copied. */
    method CopyItem(c: nat, key: string, item: CachedDataset) returns (reply: Reply)
      requires Valid() && c in stages && stages[c].InHand? && stages[c].key == key && stages[c].item == Some(item)
      modifies this
      ensures Valid() && fresh(Mine() - old(Mine()))
      ensures var e := Entry(item.expires, item.values.entries, item.version, item.sourceTime);
              && Abstract() == old(Abstract()).(callers := old(View(stages))[c := Idle], hits := old(hits) + [Hit(key, e, old(clock))])
              && reply == Reply(e.values, e.version, e.sourceTime, "cache_hit")
    {
      assert item.values in TablesOf(stages[c]);
      var entries := item.values.entries;
      hits := hits + [Hit(key, Entry(item.expires, entries, item.version, item.sourceTime), clock)];
      var copy := CloneDataset(item.values);
      ViewKept(stages);
      ContentsKept(provider);
      GiveNew(c, copy);
      return Reply(copy.entries, item.version, item.sourceTime, "cache_hit");
    }

    /** After the lock: the item in hand is looked at, which may have been replaced in the cache by now. */
    method CheckItem(f: Foreign, c: nat) returns (replies: seq<Reply>)
      requires Valid()
      modifies this
      ensures Valid() && fresh(Mine() - old(Mine()))
      ensures Abstract() == Next(f, old(Abstract()), Check(c)) && replies == Answered(old(Abstract()), Check(c))
    {
      replies := [];
      ghost var s := Abstract();
      assert At(s, c) == ViewOf(Where(c));
      match Where(c) {
        case InHand(key, ttl, item) =>
          if item.Some? && clock < item.value.expires {
            var reply := CopyItem(c, key, item.value);
            replies := [reply];
          } else {
            Move(c, Requesting(key, ttl));
          }
        case _ =>
      }
    }

    /** An accepted response is decoded into a map of the caller's own. */
    method HoldResponse(c: nat, ttl: int, d: HolidaysCache.Dataset)
      requires Valid()
      modifies this
      ensures Valid() && fresh(Mine() - old(Mine()))
      ensures Abstract() == old(Abstract()).(callers := old(View(stages))[c := Fetched(d, ttl)], responses := old(responses) + [d])
    {
      responses := responses + [d];
      var values := Decoded(d.values);
      ViewKept(stages);
      ContentsKept(provider);
      Move(c, Arrived(d.key, ttl, values, d.version, d.sourceTime));
    }

    /** The response arrives and is judged. */
    method TakeResponse(f: Foreign, c: nat, response: Response)
      requires Valid()
      modifies this
      ensures Valid() && fresh(Mine() - old(Mine()))
      ensures Abstract() == Next(f, old(Abstract()), Respond(c, response))
    {
      ghost var s := Abstract();
      assert At(s, c) == ViewOf(Where(c));
      match Where(c)
      case Requesting(key, ttl) =>
        var accepted := Accept(f, key, response, clock);
        if accepted.Err? {
          Move(c, Resting);
        } else {
          HoldResponse(c, ttl, accepted.value);
        }
      case _ =>
    }

    /** Under the second lock a copy is kept. */
    method KeepCopy(key: string, ttl: int, values: Table, version: string, sourceTime: string)
      requires Valid() && values in Held(stages)
      modifies provider
      ensures Valid() && values.entries == old(values.entries) && fresh(provider.Owned() - old(provider.Owned()))
      ensures View(stages) == old(View(stages))
      ensures provider.Contents() == if 0 < ttl then old(provider.Contents())[key := Entry(clock + ttl, values.entries, version, sourceTime)]
                                     else old(provider.Contents())
    {
      if 0 < ttl {
        ghost var owned := provider.Owned();
        provider.Store(key, values, version, sourceTime, clock + ttl);
        ViewKept(stages);
        NewKeepsSeparate(stages, owned, provider.Owned(), given, given);
      }
    }

    /** A caller is given the map it decoded. */
    method Give(c: nat, values: Table)
      requires Valid() && c in stages && stages[c].Arrived? && stages[c].values == values
      modifies this`stages, this`given
      ensures Valid() && Mine() <= old(Mine())
      ensures View(stages) == old(View(stages))[c := Idle] && provider.Contents() == old(provider.Contents())
    {
      GiftKeepsSeparate(stages, provider.Owned(), given, c);
      ViewMoved(stages, c, Resting);
      stages, given := stages[c := Resting], given + {values};
    }

    /** Then the caller is given the original. */
    method StoreAndReturn(f: Foreign, c: nat) returns (replies: seq<Reply>)
      requires Valid()
      modifies this, provider
      ensures Valid() && fresh(Mine() - old(Mine()))
      ensures Abstract() == Next(f, old(Abstract()), Store(c)) && replies == Answered(old(Abstract()), Store(c))
    {
      replies := [];
      ghost var s := Abstract();
      assert At(s, c) == ViewOf(Where(c));
      match Where(c) {
        case Arrived(key, ttl, values, version, sourceTime) =>
          assert values in TablesOf(stages[c]);
          KeepCopy(key, ttl, values, version, sourceTime);
          Give(c, values);
          replies := [Reply(values.entries, version, sourceTime, "live")];
        case _ =>
      }
    }

    /** One step of some caller, or of the clock. */
    method Step(f: Foreign, a: Action) returns (replies: seq<Reply>)
      requires Valid()
      modifies this, provider
      ensures Valid() && fresh(Mine() - old(Mine()))
      ensures Abstract() == Next(f, old(Abstract()), a) && replies == Answered(old(Abstract()), a)
    {
      replies := [];
      match a {
        case Tick(now) =>
          if clock <= now {
            clock := now;
          }
        case Start(c, key, ttl) =>
          BeginCall(f, c, key, ttl);
        case Lookup(c) =>
          TakeItem(f, c);
        case Check(c) =>
          replies := CheckItem(f, c);
        case Respond(c, response) =>
          TakeResponse(f, c, response);
        case Store(c) =>
          replies := StoreAndReturn(f, c);
      }
    }
  }

  /**
   * Any interleaving of any callers, with the maps given out so far overwritten in any way after every step: the replies, the
   * cache, and all else that can be seen are those of the machine on values.
   */
  method Interleave(f: Foreign, callers: Callers, actions: seq<Action>) returns (replies: seq<Reply>)
    requires callers.Valid()
    modifies callers, callers.provider, callers.Mine()
    ensures callers.Valid() && callers.Abstract() == Run(f, old(callers.Abstract()), actions)
    ensures replies == Answers(f, old(callers.Abstract()), actions)
  {
    ghost var initial, mine := callers.Abstract(), callers.Mine();
    replies := [];
    for k := 0 to |actions|
      invariant callers.Valid() && fresh(callers.Mine() - mine)
      invariant callers.Abstract() == Run(f, initial, actions[..k]) && replies == Answers(f, initial, actions[..k])
    {
      assert actions[..k + 1][..k] == actions[..k];
      var step := callers.Step(f, actions[k]);
      replies := replies + step;
      ScribbleGiven(callers);
    }
    assert actions[..|actions|] == actions;
  }

  /** The maps given out are overwritten; nothing else notices. */
  method ScribbleGiven(callers: Callers)
    requires callers.Valid()
    modifies callers.given
    ensures callers.Valid() && callers.Abstract() == old(callers.Abstract())
  {
    Scribble(callers.given);
    ViewKept(callers.stages);
    ContentsKept(callers.provider);
  }
}
