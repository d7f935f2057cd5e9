/** The two-level order book cache (backend/src/services/orderBookCache.ts:9-140): a memory
    map in every server over one shared Redis. Times are in milliseconds. Fetching a book
    from the database and storing it is one instant. */
module OrderBookCache {
  import opened Orders
  import opened BookDepth

  const CACHE_TTL := 1000
  const MEMORY_CACHE_TTL := 500

  // ---------------------------------------------------------------------------- the key

  datatype Request = Request(marketId: string, outcomeId: nat, depth: nat, token: Option<Token>)

  function Digit(d: nat): char
    requires d < 10
  {
    ('0' as int + d) as char
  }

  function Decimal(n: nat): (s: string)
    ensures |s| >= 1 && forall i :: 0 <= i < |s| ==> '0' <= s[i] <= '9'
  {
    if n < 10 then [Digit(n)] else Decimal(n / 10) + [Digit(n % 10)]
  }

  function TokenSuffix(token: Option<Token>): string {
    match token
    case None => ""
    case Some(Yes) => ":yes"
    case Some(No) => ":no"
  }

  function MarketPrefix(marketId: string): string {
    "orderbook:" + marketId + ":"
  }

  function CacheKey(r: Request): string {
    MarketPrefix(r.marketId) + Decimal(r.outcomeId) + ":" + Decimal(r.depth) + TokenSuffix(r.token)
  }

  lemma {:induction false} DecimalInjective(a: nat, b: nat)
    requires Decimal(a) == Decimal(b)
    ensures a == b
  {
    var s := Decimal(a);
    assert s[|s| - 1] == Digit(a % 10) && s[|s| - 1] == Digit(b % 10);
    if a >= 10 && b >= 10 {
      assert s[..|s| - 1] == Decimal(a / 10) && s[..|s| - 1] == Decimal(b / 10);
      DecimalInjective(a / 10, b / 10);
    } else {
      assert |Decimal(a)| == 1 <==> a < 10;
      assert |Decimal(b)| == 1 <==> b < 10;
    }
  }

  predicate NoColon(s: string) {
    forall i :: 0 <= i < |s| ==> s[i] != ':'
  }

  /** Of two ways to cut the same string at a colon, the one that cuts earlier leaves a colon
      in its last part. */
  lemma EarlierCutKeepsColon(a: string, x: string, b: string, y: string)
    requires |x| < |y| && a + ":" + x == b + ":" + y
    ensures !NoColon(y)
  {
    var s := a + ":" + x;
    assert s[|a|] == ':' && s[|a|] == y[|a| - |b| - 1];
  }

  /** Cutting at the last colon is unambiguous. */
  lemma LastColon(a: string, x: string, b: string, y: string)
    requires NoColon(x) && NoColon(y) && a + ":" + x == b + ":" + y
    ensures a == b && x == y
  {
    assert |x| == |y| by {
      if |x| < |y| {
        EarlierCutKeepsColon(a, x, b, y);
      }
      if |y| < |x| {
        EarlierCutKeepsColon(b, y, a, x);
      }
    }
    var s := a + ":" + x;
    assert a == s[..|a|] && b == s[..|b|];
    assert x == s[|a| + 1..] && y == s[|b| + 1..];
  }

  /** Everything before the last part of a key, and that last part. */
  function KeyHead(r: Request): string {
    if r.token.None? then MarketPrefix(r.marketId) + Decimal(r.outcomeId)
    else MarketPrefix(r.marketId) + Decimal(r.outcomeId) + ":" + Decimal(r.depth)
  }

  function KeyTail(r: Request): string {
    match r.token
    case None => Decimal(r.depth)
    case Some(Yes) => "yes"
    case Some(No) => "no"
  }

  lemma KeyParts(r: Request)
    ensures CacheKey(r) == KeyHead(r) + ":" + KeyTail(r) && NoColon(KeyTail(r))
  {
    if r.token == Some(Yes) {
      assert ":yes" == ":" + "yes";
    } else if r.token == Some(No) {
      assert ":no" == ":" + "no";
    }
  }

  lemma HeadInjective(r: Request, q: Request)
    requires r.token == q.token && KeyHead(r) == KeyHead(q) && (r.token.None? ==> r.depth == q.depth)
    ensures r == q
  {
    if r.token.Some? {
      LastColon(MarketPrefix(r.marketId) + Decimal(r.outcomeId), Decimal(r.depth),
                MarketPrefix(q.marketId) + Decimal(q.outcomeId), Decimal(q.depth));
      DecimalInjective(r.depth, q.depth);
    }
    LastColon("orderbook:" + r.marketId, Decimal(r.outcomeId), "orderbook:" + q.marketId, Decimal(q.outcomeId));
    DecimalInjective(r.outcomeId, q.outcomeId);
    assert r.marketId == ("orderbook:" + r.marketId)[10..] == ("orderbook:" + q.marketId)[10..] == q.marketId;
  }

  lemma TailNamesToken(r: Request)
    ensures r.token == Some(Yes) <==> KeyTail(r)[0] == 'y'
    ensures r.token == Some(No) <==> KeyTail(r)[0] == 'n'
  {
  }

  /** Two requests share a cache key only if they are the same request, whatever characters
      the market ids contain. */
  lemma CacheKeyInjective(r: Request, q: Request)
    requires CacheKey(r) == CacheKey(q)
    ensures r == q
  {
    KeyParts(r);
    KeyParts(q);
    LastColon(KeyHead(r), KeyTail(r), KeyHead(q), KeyTail(q));
    TailNamesToken(r);
    TailNamesToken(q);
    if r.token.None? {
      DecimalInjective(r.depth, q.depth);
    }
    HeadInjective(r, q);
  }

  // -------------------------------------------------------------------------- one server

  datatype OrderBook = OrderBook(bids: seq<Level>, asks: seq<Level>, lastPrice: Option<nat>)

  datatype Entry = Entry(data: OrderBook, expiresAt: nat)

  type Cache = map<string, Entry>

  /** Which calls to Redis come back without an error. */
  datatype Link = Link(getOk: bool, writeOk: bool)

  datatype Answer = Answer(memory: Cache, redis: Cache, book: OrderBook)

  predicate InMemory(memory: Cache, key: string, now: nat) {
    key in memory && memory[key].expiresAt > now
  }

  /** Redis still answers in the millisecond in which a key expires. */
  predicate InRedis(redis: Cache, key: string, now: nat) {
    key in redis && now <= redis[key].expiresAt
  }

  function FetchAndStore(memory: Cache, redis: Cache, key: string, now: nat, current: OrderBook, link: Link): Answer {
    Answer(memory[key := Entry(current, now + MEMORY_CACHE_TTL)],
           if link.writeOk then redis[key := Entry(current, now + CACHE_TTL)] else redis,
           current)
  }

  /** What a request is answered and what it leaves in the two caches; `current` is the book the
      database holds now. */
  function Lookup(memory: Cache, redis: Cache, key: string, now: nat, current: OrderBook, forceFresh: bool,
                  link: Link): Answer {
    if !forceFresh && InMemory(memory, key, now) then
      Answer(memory, redis, memory[key].data)
    else if !forceFresh && link.getOk && InRedis(redis, key, now) then
      Answer(memory[key := Entry(redis[key].data, now + MEMORY_CACHE_TTL)], redis, redis[key].data)
    else
      FetchAndStore(memory, redis, key, now, current, link)
  }

  function Without(cache: Cache, key: string): Cache {
    map k | k in cache && k != key :: cache[k]
  }

  predicate StartsWith(s: string, prefix: string) {
    |prefix| <= |s| && s[..|prefix|] == prefix
  }

  function WithoutPrefix(cache: Cache, prefix: string): Cache {
    map k | k in cache && !StartsWith(k, prefix) :: cache[k]
  }

  function Unexpired(cache: Cache, now: nat): Cache {
    map k | k in cache && cache[k].expiresAt > now :: cache[k]
  }

  class Redis {
    var entries: Cache

    constructor ()
      ensures entries == map[]
    {
      entries := map[];
    }
  }

  class OrderBookCache {
    const redis: Redis
    var memoryCache: Cache

    constructor (redis: Redis)
      ensures this.redis == redis && memoryCache == map[]
    {
      this.redis := redis;
      memoryCache := map[];
    }

    method GetOrderBook(r: Request, forceFresh: bool, now: nat, current: OrderBook, link: Link)
      returns (book: OrderBook)
      modifies this`memoryCache, redis`entries
      ensures Answer(memoryCache, redis.entries, book)
           == Lookup(old(memoryCache), old(redis.entries), CacheKey(r), now, current, forceFresh, link)
    {
      var cacheKey := CacheKey(r);
      if !forceFresh {
        if cacheKey in memoryCache && memoryCache[cacheKey].expiresAt > now {
          return memoryCache[cacheKey].data;
        }
        if link.getOk && cacheKey in redis.entries && now <= redis.entries[cacheKey].expiresAt {
          book := redis.entries[cacheKey].data;
          memoryCache := memoryCache[cacheKey := Entry(book, now + MEMORY_CACHE_TTL)];
          return;
        }
      }
      book := current;
      if link.writeOk {
        redis.entries := redis.entries[cacheKey := Entry(book, now + CACHE_TTL)];
      }
      memoryCache := memoryCache[cacheKey := Entry(book, now + MEMORY_CACHE_TTL)];
    }

    method Invalidate(marketId: string, outcomeId: nat, depth: nat, link: Link)
      modifies this`memoryCache, redis`entries
      ensures var key := CacheKey(Request(marketId, outcomeId, depth, None));
              && memoryCache == Without(old(memoryCache), key)
              && redis.entries == if link.writeOk then Without(old(redis.entries), key) else old(redis.entries)
    {
      var cacheKey := CacheKey(Request(marketId, outcomeId, depth, None));
      memoryCache := memoryCache - {cacheKey};
      if link.writeOk {
        redis.entries := redis.entries - {cacheKey};
      }
    }

    method InvalidateMarket(marketId: string, link: Link)
      modifies this`memoryCache, redis`entries
      ensures memoryCache == WithoutPrefix(old(memoryCache), MarketPrefix(marketId))
      ensures redis.entries == if link.getOk && link.writeOk
              then WithoutPrefix(old(redis.entries), MarketPrefix(marketId))
                               else old(redis.entries)
    {
      var prefix := MarketPrefix(marketId);
      var keys := memoryCache.Keys;
      while keys != {}
        invariant keys <= memoryCache.Keys <= old(memoryCache.Keys)
        invariant forall k :: k in old(memoryCache) && k !in memoryCache ==> StartsWith(k, prefix)
        invariant forall k :: k in memoryCache ==>
                  memoryCache[k] == old(memoryCache)[k] && (StartsWith(k, prefix) ==> k in keys)
        invariant redis.entries == old(redis.entries)
        decreases keys
      {
        var key :| key in keys;
        keys := keys - {key};
        if StartsWith(key, prefix) {
          memoryCache := memoryCache - {key};
        }
      }
      if link.getOk && link.writeOk {
        var matching := set k | k in redis.entries && StartsWith(k, prefix);
        redis.entries := redis.entries - matching;
      }
    }

    method Cleanup(now: nat)
      modifies this`memoryCache
      ensures memoryCache == Unexpired(old(memoryCache), now)
    {
      var keys := memoryCache.Keys;
      while keys != {}
        invariant keys <= memoryCache.Keys <= old(memoryCache.Keys)
        invariant forall k :: k in old(memoryCache) && k !in memoryCache ==> old(memoryCache)[k].expiresAt <= now
        invariant forall k :: k in memoryCache ==>
                  memoryCache[k] == old(memoryCache)[k] && (memoryCache[k].expiresAt <= now ==> k in keys)
        decreases keys
      {
        var key :| key in keys;
        keys := keys - {key};
        if memoryCache[key].expiresAt <= now {
          memoryCache := memoryCache - {key};
        }
      }
    }
  }

  // ---------------------------------------------------------------- servers over one Redis

  /** The book the database holds for each request at each instant. */
  type History = (Request, nat) -> OrderBook

  datatype System = System(now: nat, redis: Cache, servers: seq<Cache>)

  datatype Event =
    | Tick(millis: nat)
    | Get(server: nat, request: Request, forceFresh: bool, link: Link)
    | Invalidate(server: nat, marketId: string, outcomeId: nat, depth: nat, link: Link)
    | InvalidateMarket(server: nat, marketId: string, link: Link)
    | Cleanup(server: nat)
    | Restart(server: nat)
    | RedisDrops(key: string)

  function Start(servers: nat): System {
    System(0, map[], seq(servers, i => map[]))
  }

  function Answered(db: History, s: System, server: nat, r: Request, forceFresh: bool, link: Link): Answer
    requires server < |s.servers|
  {
    Lookup(s.servers[server], s.redis, CacheKey(r), s.now, db(r, s.now), forceFresh, link)
  }

  function Step(db: History, s: System, e: Event): System {
    if !e.Tick? && !e.RedisDrops? && e.server >= |s.servers| then s
    else
      match e
      case Tick(millis) => s.(now := s.now + millis)
      case Get(i, r, forceFresh, link) =>
        var answer := Answered(db, s, i, r, forceFresh, link);
        s.(redis := answer.redis, servers := s.servers[i := answer.memory])
      case Invalidate(i, marketId, outcomeId, depth, link) =>
        var key := CacheKey(Request(marketId, outcomeId, depth, None));
        s.(redis := if link.writeOk then Without(s.redis, key) else s.redis,
           servers := s.servers[i := Without(s.servers[i], key)])
      case InvalidateMarket(i, marketId, link) =>
        s.(redis := if link.getOk && link.writeOk then WithoutPrefix(s.redis, MarketPrefix(marketId)) else s.redis,
           servers := s.servers[i := WithoutPrefix(s.servers[i], MarketPrefix(marketId))])
      case Cleanup(i) => s.(servers := s.servers[i := Unexpired(s.servers[i], s.now)])
      case Restart(i) => s.(servers := s.servers[i := map[]])
      case RedisDrops(key) => s.(redis := Without(s.redis, key))
  }

  function Run(db: History, s: System, events: seq<Event>): System
    decreases |events|
  {
    if events == [] then s else Run(db, Step(db, s, events[0]), events[1..])
  }

  // ------------------------------------------------------------------------- the invariant

  /** The entry holds the book that one request with this key had at an instant no later than
      now, and it runs out at most `ttl` after that instant. */
  ghost predicate Dated(db: History, now: nat, key: string, e: Entry, ttl: nat) {
    exists r: Request, t0: nat ::
      e.data == db(r, t0) && CacheKey(r) == key && t0 <= now && e.expiresAt <= t0 + ttl
  }

  ghost predicate AllDated(db: History, now: nat, cache: Cache, ttl: nat) {
    forall key :: key in cache ==> Dated(db, now, key, cache[key], ttl)
  }

  ghost predicate Inv(db: History, s: System) {
    && AllDated(db, s.now, s.redis, CACHE_TTL)
    && forall i :: 0 <= i < |s.servers| ==> AllDated(db, s.now, s.servers[i], CACHE_TTL + MEMORY_CACHE_TTL)
  }

  lemma LaterStillDated(db: History, now: nat, later: nat, cache: Cache, ttl: nat)
    requires AllDated(db, now, cache, ttl) && now <= later
    ensures AllDated(db, later, cache, ttl)
  {
    forall key | key in cache
      ensures Dated(db, later, key, cache[key], ttl)
    {
      var r: Request, t0: nat :| cache[key].data == db(r, t0) && CacheKey(r) == key && t0 <= now
        && cache[key].expiresAt <= t0 + ttl;
      assert cache[key].data == db(r, t0);
    }
  }

  /** Fetching dates both new entries at this instant; copying from Redis adds the memory
      lifetime to what was left of the Redis lifetime. */
  lemma LookupKeepsDated(db: History, memory: Cache, redis: Cache, r: Request, now: nat, forceFresh: bool, link: Link)
    requires AllDated(db, now, redis, CACHE_TTL) && AllDated(db, now, memory, CACHE_TTL + MEMORY_CACHE_TTL)
    ensures var answer := Lookup(memory, redis, CacheKey(r), now, db(r, now), forceFresh, link);
            && AllDated(db, now, answer.redis, CACHE_TTL)
            && AllDated(db, now, answer.memory, CACHE_TTL + MEMORY_CACHE_TTL)
  {
    var key := CacheKey(r);
    assert Dated(db, now, key, Entry(db(r, now), now + CACHE_TTL), CACHE_TTL);
    assert Dated(db, now, key, Entry(db(r, now), now + MEMORY_CACHE_TTL), CACHE_TTL + MEMORY_CACHE_TTL);
    if InRedis(redis, key, now) {
      var e := redis[key];
      var q: Request, t0: nat :| e.data == db(q, t0) && CacheKey(q) == key && t0 <= now
        && e.expiresAt <= t0 + CACHE_TTL;
      var copy := Entry(e.data, now + MEMORY_CACHE_TTL);
      assert copy.data == db(q, t0);
      assert Dated(db, now, key, copy, CACHE_TTL + MEMORY_CACHE_TTL);
    }
  }

  lemma StepKeepsInv(db: History, s: System, e: Event)
    requires Inv(db, s)
    ensures Inv(db, Step(db, s, e))
  {
    match e
    case Tick(millis) =>
      LaterStillDated(db, s.now, s.now + millis, s.redis, CACHE_TTL);
      forall i | 0 <= i < |s.servers|
        ensures AllDated(db, s.now + millis, s.servers[i], CACHE_TTL + MEMORY_CACHE_TTL)
      {
        LaterStillDated(db, s.now, s.now + millis, s.servers[i], CACHE_TTL + MEMORY_CACHE_TTL);
      }
    case Get(i, r, forceFresh, link) =>
      if i < |s.servers| {
        LookupKeepsDated(db, s.servers[i], s.redis, r, s.now, forceFresh, link);
      }
    case _ =>
  }

  lemma {:induction false} RunsKeepInv(db: History, s: System, events: seq<Event>)
    requires Inv(db, s)
    ensures Inv(db, Run(db, s, events))
    decreases |events|
  {
    if events != [] {
      StepKeepsInv(db, s, events[0]);
      RunsKeepInv(db, Step(db, s, events[0]), events[1..]);
    }
  }

  /** The staleness bound: after any run of any number of servers sharing one Redis, whatever
      a server answers was the database's book for exactly the market, outcome, depth and
      token type asked for, less than 1500 ms ago. */
  lemma AnswersAreRecent(db: History, servers: nat, events: seq<Event>, server: nat, r: Request, forceFresh: bool,
                         link: Link)
    requires server < |Run(db, Start(servers), events).servers|
    ensures var s := Run(db, Start(servers), events);
            exists t0: nat :: t0 <= s.now < t0 + 1500 && Answered(db, s, server, r, forceFresh, link).book == db(r, t0)
  {
    var s := Run(db, Start(servers), events);
    RunsKeepInv(db, Start(servers), events);
    var key := CacheKey(r);
    var memory := s.servers[server];
    if !forceFresh && InMemory(memory, key, s.now) {
      SourceOf(db, s.now, r, memory[key], CACHE_TTL + MEMORY_CACHE_TTL);
    } else if !forceFresh && link.getOk && InRedis(s.redis, key, s.now) {
      SourceOf(db, s.now, r, s.redis[key], CACHE_TTL);
    } else {
      assert Answered(db, s, server, r, forceFresh, link).book == db(r, s.now);
    }
  }

  lemma SourceOf(db: History, now: nat, r: Request, e: Entry, ttl: nat)
    requires Dated(db, now, CacheKey(r), e, ttl)
    ensures exists t0: nat :: t0 <= now && e.expiresAt <= t0 + ttl && e.data == db(r, t0)
  {
    var q: Request, t0: nat :| e.data == db(q, t0) && CacheKey(q) == CacheKey(r) && t0 <= now
      && e.expiresAt <= t0 + ttl;
    CacheKeyInjective(q, r);
  }

  /** The bound is reached: a second server that copies a book from Redis in its last
      millisecond still serves it 1499 ms after the fetch, whatever happened in between. */
  lemma BoundIsReached(db: History, r: Request)
    ensures var ok := Link(true, true);
            var s := Run(db, Start(2), [Get(0, r, false, ok), Tick(1000), Get(1, r, false, ok), Tick(499)]);
            && s.now == 1499 && |s.servers| == 2
            && Answered(db, s, 1, r, false, ok).book == db(r, 0)
  {
    var ok := Link(true, true);
    var events := [Get(0, r, false, ok), Tick(1000), Get(1, r, false, ok), Tick(499)];
    var key := CacheKey(r);
    var s1 := Step(db, Start(2), events[0]);
    assert s1.redis == map[key := Entry(db(r, 0), 1000)] && s1.servers[1] == map[];
    var s2 := Step(db, s1, events[1]);
    var s3 := Step(db, s2, events[2]);
    assert s3.servers[1] == map[key := Entry(db(r, 0), 1500)];
    var s4 := Step(db, s3, events[3]);
    assert events[1..][1..] == events[2..] && events[2..][1..] == events[3..] && events[3..][1..] == [];
    assert Run(db, s3, events[3..]) == s4;
    assert Run(db, s2, events[2..]) == s4;
    assert Run(db, s1, events[1..]) == s4;
  }

  /** A forced refresh answers the database's book of this instant; the server repeats that
      book until 500 ms have passed, and a server that holds nothing for the request takes
      it from Redis until 1000 ms have. */
  lemma RefreshIsRemembered(db: History, s: System, i: nat, j: nat, r: Request, millis: nat, link: Link, later: Link)
    requires i < |s.servers| && j < |s.servers|
    ensures Answered(db, s, i, r, true, link).book == db(r, s.now)
    ensures var after := Step(db, Step(db, s, Get(i, r, true, link)), Tick(millis));
            && (millis < 500 ==> Answered(db, after, i, r, false, later).book == db(r, s.now))
            && (millis <= 1000 && link.writeOk && later.getOk && j != i && CacheKey(r) !in s.servers[j] ==>
                Answered(db, after, j, r, false, later).book == db(r, s.now))
  {
    var mid := Step(db, s, Get(i, r, true, link));
    var key := CacheKey(r);
    assert mid.servers[i] == s.servers[i][key := Entry(db(r, s.now), s.now + 500)];
    assert link.writeOk ==> mid.redis == s.redis[key := Entry(db(r, s.now), s.now + 1000)];
  }

  /** Answering one request changes the answer to no other, on any server. */
  lemma GetLeavesOtherRequests(db: History, s: System, i: nat, r: Request, first: bool, link: Link, j: nat,
                               q: Request, forceFresh: bool, later: Link)
    requires j < |s.servers| && q != r
    ensures var after := Step(db, s, Get(i, r, first, link));
            j < |after.servers|
            && Answered(db, after, j, q, forceFresh, later).book == Answered(db, s, j, q, forceFresh, later).book
  {
    if CacheKey(q) == CacheKey(r) {
      CacheKeyInjective(q, r);
    }
  }

  /** The sweep only forgets what no request would be answered with. */
  lemma CleanupChangesNoAnswer(db: History, s: System, i: nat, j: nat, r: Request, forceFresh: bool, link: Link)
    requires j < |s.servers|
    ensures var after := Step(db, s, Cleanup(i));
            j < |after.servers|
            && Answered(db, after, j, r, forceFresh, link).book == Answered(db, s, j, r, forceFresh, link).book
  {
    var key := CacheKey(r);
    if i == j {
      assert InMemory(Unexpired(s.servers[i], s.now), key, s.now) <==> InMemory(s.servers[i], key, s.now);
    }
  }

  /** Invalidation reaches exactly one request: on the server that ran it the book asked for
      without a token type is fetched anew (when Redis also dropped it), while every other
      request, the same book for one token type included, is answered as if nothing had been
      invalidated. */
  lemma InvalidateReachesOneRequest(db: History, s: System, i: nat, gone: Request, r: Request, forceFresh: bool,
                                    link: Link)
    requires i < |s.servers| && gone.token.None? && link.writeOk
    ensures var after := Step(db, s, Invalidate(i, gone.marketId, gone.outcomeId, gone.depth, link));
            Answered(db, after, i, r, forceFresh, link).book ==
            if r == gone then db(r, s.now) else Answered(db, s, i, r, forceFresh, link).book
  {
    assert gone == Request(gone.marketId, gone.outcomeId, gone.depth, None);
    if CacheKey(r) == CacheKey(gone) {
      CacheKeyInjective(r, gone);
    }
  }

  /** Dropping a market by key prefix drops that market's books and no other's, as long as
      market ids contain no colon. */
  lemma PrefixNamesMarket(marketId: string, r: Request)
    requires NoColon(marketId) && NoColon(r.marketId)
    ensures StartsWith(CacheKey(r), MarketPrefix(marketId)) <==> r.marketId == marketId
  {
    var key := CacheKey(r);
    var prefix := MarketPrefix(marketId);
    assert StartsWith(key, MarketPrefix(r.marketId));
    assert forall i :: 0 <= i < |marketId| ==> prefix[10 + i] == marketId[i];
    assert forall i :: 0 <= i < |r.marketId| ==> key[10 + i] == r.marketId[i];
    assert prefix[10 + |marketId|] == ':' && key[10 + |r.marketId|] == ':';
    assert |marketId| < |r.marketId| ==> key[10 + |marketId|] != ':';
    assert |r.marketId| < |marketId| ==> prefix[10 + |r.marketId|] != ':';
    if StartsWith(key, prefix) {
      assert forall i :: 0 <= i < |prefix| ==> prefix[i] == key[i];
      assert |marketId| == |r.marketId|;
      assert marketId == r.marketId;
    }
  }

  /** Hence after a market is invalidated, the server that did it and Redis answer every
      request for that market from the database. */
  lemma MarketInvalidationRefreshes(db: History, s: System, i: nat, r: Request, forceFresh: bool, link: Link)
    requires i < |s.servers| && link.getOk && link.writeOk
    ensures var after := Step(db, s, InvalidateMarket(i, r.marketId, link));
            Answered(db, after, i, r, forceFresh, link).book == db(r, s.now)
  {
    assert CacheKey(r)[..|MarketPrefix(r.marketId)|] == MarketPrefix(r.marketId);
  }
}
