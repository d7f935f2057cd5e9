/** The aggregated order book (backend/src/services/orderBookService.ts:23-58, 103-134 and
    141-172): price levels out of the fetched rows, and what the row limit of the query
    can hide. */
module BookDepth {
  import opened Orders
  import opened Matching
  import OrderLedger
  import OrderRuns
  import Liquidation

  datatype Level = Level(price: Bps, size: nat, orders: nat)

  function LiveSize(o: Order): nat {
    if Remaining(o) > 0 then Remaining(o) else 0
  }

  function SizeAt(rows: seq<Order>, p: Bps): nat {
    if rows == [] then 0
    else SizeAt(rows[..|rows| - 1], p) + if rows[|rows| - 1].price == p then LiveSize(rows[|rows| - 1]) else 0
  }

  function CountAt(rows: seq<Order>, p: Bps): nat {
    if rows == [] then 0
    else
      var o := rows[|rows| - 1];
      CountAt(rows[..|rows| - 1], p) + if o.price == p && Remaining(o) > 0 then 1 else 0
  }

  predicate Better(p: Bps, q: Bps, side: Side) {
    if side.Buy? then p > q else p < q
  }

  /** The levels of a side: distinct prices, best first, each with the total and number of
      the rows that still have something to fill; only worse prices are cut off. */
  ghost predicate IsDepth(rows: seq<Order>, side: Side, maxLevels: nat, levels: seq<Level>) {
    && |levels| <= maxLevels
    && (forall i, j :: 0 <= i < j < |levels| ==> Better(levels[i].price, levels[j].price, side))
    && (forall i :: 0 <= i < |levels| ==>
          var l := levels[i]; l.orders > 0 && l.orders == CountAt(rows, l.price) && l.size == SizeAt(rows, l.price))
    && (forall p :: CountAt(rows, p) > 0 ==>
          || HasLevel(levels, p)
          || (|levels| == maxLevels && forall i :: 0 <= i < |levels| ==> Better(levels[i].price, p, side)))
  }

  predicate IsBestKey(keys: set<Bps>, best: Bps, side: Side) {
    best in keys && forall p :: p in keys ==> p == best || Better(best, p, side)
  }

  lemma {:induction false} BestKeyExists(keys: set<Bps>, side: Side) returns (best: Bps)
    requires keys != {}
    ensures IsBestKey(keys, best, side)
  {
    var k :| k in keys;
    best := k;
    if keys != {k} {
      var rest := BestKeyExists(keys - {k}, side);
      if Better(rest, k, side) {
        best := rest;
      }
      assert forall p :: p in keys ==> p == k || p in keys - {k};
    }
  }

  function BestKey(keys: set<Bps>, side: Side): (best: Bps)
    requires keys != {}
    ensures IsBestKey(keys, best, side)
  {
    assert exists best :: IsBestKey(keys, best, side) by {
      var best := BestKeyExists(keys, side);
    }
    var best :| best in keys && IsBestKey(keys, best, side);
    best
  }

  type PriceMap = map<Bps, (nat, nat)>

  /** The price of every level is an entry, every entry is a level, best price first. */
  ghost predicate AreLevelsOf(m: PriceMap, side: Side, levels: seq<Level>) {
    && (forall i, j :: 0 <= i < j < |levels| ==> Better(levels[i].price, levels[j].price, side))
    && (forall i :: 0 <= i < |levels| ==>
       levels[i].price in m && m[levels[i].price] == (levels[i].size, levels[i].orders))
    && (forall p :: p in m ==> HasLevel(levels, p))
  }

  predicate HasLevel(levels: seq<Level>, p: Bps) {
    exists i :: 0 <= i < |levels| && levels[i].price == p
  }

  /** Sorting the entries of the price map; entries have distinct prices. */
  function SortedLevels(m: PriceMap, side: Side): (levels: seq<Level>)
    ensures AreLevelsOf(m, side, levels)
    decreases |m.Keys|
  {
    if m == map[] then []
    else
      assert m.Keys != {};
      var best := BestKey(m.Keys, side);
      var smaller := map p | p in m && p != best :: m[p];
      assert smaller.Keys == m.Keys - {best};
      var rest := SortedLevels(smaller, side);
      LevelsOfCons(m, side, best, smaller, rest);
      [Level(best, m[best].0, m[best].1)] + rest
  }

  lemma LevelsOfCons(m: PriceMap, side: Side, best: Bps, smaller: PriceMap, rest: seq<Level>)
    requires IsBestKey(m.Keys, best, side) && AreLevelsOf(smaller, side, rest)
    requires smaller == map p | p in m && p != best :: m[p]
    ensures AreLevelsOf(m, side, [Level(best, m[best].0, m[best].1)] + rest)
  {
    var levels := [Level(best, m[best].0, m[best].1)] + rest;
    assert levels[0].price == best;
    forall p | p in m
      ensures HasLevel(levels, p)
    {
      if p != best {
        assert HasLevel(rest, p);
        var i :| 0 <= i < |rest| && rest[i].price == p;
        assert levels[i + 1].price == p;
      }
    }
  }

  method AggregateByPrice(orders: seq<Order>, maxLevels: nat, side: Side) returns (levels: seq<Level>)
    ensures IsDepth(orders, side, maxLevels, levels)
  {
    var priceMap: PriceMap := map[];
    for n := 0 to |orders|
      invariant forall p :: p in priceMap <==> CountAt(orders[..n], p) > 0
      invariant forall p :: p in priceMap ==> priceMap[p] == (SizeAt(orders[..n], p), CountAt(orders[..n], p))
    {
      var order := orders[n];
      assert orders[..n + 1][..n] == orders[..n];
      var remaining := Remaining(order);
      if remaining > 0 {
        NothingCounted(orders[..n], order.price);
        var existing := if order.price in priceMap then priceMap[order.price] else (0, 0);
        priceMap := priceMap[order.price := (existing.0 + remaining, existing.1 + 1)];
      }
    }
    assert orders[..|orders|] == orders;
    var sorted := SortedLevels(priceMap, side);
    CutIsDepth(orders, side, maxLevels, priceMap, sorted);
    levels := if |sorted| <= maxLevels then sorted else sorted[..maxLevels];
  }

  lemma CutIsDepth(rows: seq<Order>, side: Side, maxLevels: nat, m: PriceMap, sorted: seq<Level>)
    requires AreLevelsOf(m, side, sorted)
    requires forall p :: p in m <==> CountAt(rows, p) > 0
    requires forall p :: p in m ==> m[p] == (SizeAt(rows, p), CountAt(rows, p))
    ensures IsDepth(rows, side, maxLevels, if |sorted| <= maxLevels then sorted else sorted[..maxLevels])
  {
    var levels := if |sorted| <= maxLevels then sorted else sorted[..maxLevels];
    forall p | CountAt(rows, p) > 0
      ensures HasLevel(levels, p) ||
              (|levels| == maxLevels && forall i :: 0 <= i < |levels| ==> Better(levels[i].price, p, side))
    {
      assert HasLevel(sorted, p);
      var k :| 0 <= k < |sorted| && sorted[k].price == p;
      if k < |levels| {
        assert levels[k].price == p;
      }
    }
  }

  lemma {:induction false} NothingCounted(rows: seq<Order>, p: Bps)
    ensures CountAt(rows, p) == 0 ==> SizeAt(rows, p) == 0
  {
    if rows != [] {
      NothingCounted(rows[..|rows| - 1], p);
    }
  }

  // ------------------------------------------------------------------- the row limit

  /** Rows as the query sorts them. */
  ghost predicate Sorted(queue: seq<Order>, side: Side) {
    forall i, j :: 0 <= i < j < |queue| ==> NotWorse(queue[i], queue[j], side)
  }

  function Fetched(queue: seq<Order>, limit: nat): (rows: seq<Order>)
    ensures rows <= queue && |rows| == Min(|queue|, limit)
  {
    if |queue| <= limit then queue else queue[..limit]
  }

  /** The price of the best row with something to fill. */
  function Best(queue: seq<Order>): Option<Bps> {
    if queue == [] then None
    else if Remaining(queue[0]) > 0 then Some(queue[0].price)
    else Best(queue[1..])
  }

  lemma {:induction false} CountConcat(a: seq<Order>, b: seq<Order>, p: Bps)
    ensures CountAt(a + b, p) == CountAt(a, p) + CountAt(b, p)
    ensures SizeAt(a + b, p) == SizeAt(a, p) + SizeAt(b, p)
  {
    if b == [] {
      assert a + b == a;
    } else {
      CountConcat(a, b[..|b| - 1], p);
      assert (a + b)[..|a + b| - 1] == a + b[..|b| - 1];
    }
  }

  lemma {:induction false} NoneAt(rows: seq<Order>, p: Bps)
    requires forall i :: 0 <= i < |rows| ==> rows[i].price != p
    ensures CountAt(rows, p) == 0 && SizeAt(rows, p) == 0
  {
    if rows != [] {
      NoneAt(rows[..|rows| - 1], p);
    }
  }

  /** The best level is the best live row. */
  lemma {:induction false} BestIsCounted(queue: seq<Order>, side: Side)
    requires Sorted(queue, side)
    ensures Best(queue).None? ==> forall p :: CountAt(queue, p) == 0
    ensures Best(queue).Some? ==> CountAt(queue, Best(queue).value) > 0
                                  && forall p :: CountAt(queue, p) > 0 ==>
                                     p == Best(queue).value || Better(Best(queue).value, p, side)
  {
    if queue != [] {
      var head, rest := queue[0], queue[1..];
      assert queue == [head] + rest;
      assert [head][..0] == [];
      BestIsCounted(rest, side);
      forall p
        ensures CountAt(queue, p) == (if head.price == p && Remaining(head) > 0 then 1 else 0) + CountAt(rest, p)
      {
        CountConcat([head], rest, p);
      }
      forall p | CountAt(rest, p) > 0
        ensures p == head.price || Better(head.price, p, side)
      {
        if p != head.price && !Better(head.price, p, side) {
          NoneAt(rest, p);
        }
      }
    }
  }

  /** Whatever the depth, the first level shows the best live row of those fetched. */
  lemma FirstLevelIsBest(queue: seq<Order>, side: Side, maxLevels: nat, levels: seq<Level>)
    requires Sorted(queue, side) && maxLevels > 0 && IsDepth(queue, side, maxLevels, levels)
    ensures if levels == [] then Best(queue) == None else Best(queue) == Some(levels[0].price)
  {
    BestIsCounted(queue, side);
    if Best(queue).Some? {
      var p := Best(queue).value;
      assert CountAt(queue, p) > 0;
      if levels != [] {
        assert CountAt(queue, levels[0].price) > 0;
      }
    }
  }

  lemma {:induction false} BestOfPrefix(queue: seq<Order>, limit: nat)
    ensures Best(Fetched(queue, limit)).Some? ==> Best(Fetched(queue, limit)) == Best(queue)
  {
    if |queue| > limit > 0 {
      BestOfPrefix(queue[1..], limit - 1);
      assert queue[..limit][1..] == queue[1..][..limit - 1];
      assert |queue[1..]| > limit - 1;
    }
  }

  predicate HasLiveRow(rows: seq<Order>) {
    exists i :: 0 <= i < |rows| && Remaining(rows[i]) > 0
  }

  lemma {:induction false} BestNeedsLiveRow(rows: seq<Order>)
    ensures Best(rows).Some? <==> HasLiveRow(rows)
  {
    if rows != [] {
      var rest := rows[1..];
      BestNeedsLiveRow(rest);
      assert forall i :: 1 <= i < |rows| ==> rows[i] == rest[i - 1];
      assert forall i :: 0 <= i < |rest| ==> rest[i] == rows[i + 1];
    }
  }

  /** The row limit leaves the best price alone exactly when a live row is among those
      fetched or there is none at all: exhausted rows that still carry an open status can
      crowd the live ones out. */
  lemma LimitKeepsBestExactly(queue: seq<Order>, limit: nat)
    ensures Best(Fetched(queue, limit)) == Best(queue) <==> HasLiveRow(Fetched(queue, limit)) || !HasLiveRow(queue)
  {
    BestOfPrefix(queue, limit);
    BestNeedsLiveRow(queue);
    BestNeedsLiveRow(Fetched(queue, limit));
  }

  /** A level strictly better than the last fetched row is complete: the rows cut off by
      the limit do not belong to it. */
  lemma BetterLevelsAreComplete(queue: seq<Order>, side: Side, limit: nat, p: Bps)
    requires Sorted(queue, side) && 0 < limit < |queue|
    requires Better(p, queue[limit - 1].price, side)
    ensures SizeAt(Fetched(queue, limit), p) == SizeAt(queue, p)
    ensures CountAt(Fetched(queue, limit), p) == CountAt(queue, p)
  {
    var rest := queue[limit..];
    assert queue == queue[..limit] + rest;
    CountConcat(queue[..limit], rest, p);
    forall i | 0 <= i < |rest|
      ensures rest[i].price != p
    {
      assert rest[i] == queue[limit + i];
      assert NotWorse(queue[limit - 1], queue[limit + i], side);
    }
    NoneAt(rest, p);
  }

  function RowsOf(t: Table, ids: seq<nat>): seq<Order>
    requires ValidIds(t, ids)
  {
    seq(|ids|, i requires 0 <= i < |ids| => t[ids[i]])
  }

  /** The book lists limit orders only, of one stored token type if the caller names one. */
  predicate Listed(o: Order, side: Side, token: Option<Token>) {
    o.side == side && o.kind.LimitOrder? && IsOpenStatus(o.status) && (token.Some? ==> o.token == token)
  }

  /** What the book's query for one side selects, before its row limit. */
  ghost predicate IsBookQueue(t: Table, side: Side, token: Option<Token>, ids: seq<nat>) {
    && ValidIds(t, ids)
    && (forall i :: 0 <= i < |t| ==> (i in ids <==> Listed(t[i], side, token)))
    && Sorted(RowsOf(t, ids), side)
  }

  /** The levels that the book shows for one side. */
  ghost predicate Shows(t: Table, side: Side, token: Option<Token>, depth: nat, levels: seq<Level>) {
    exists ids :: IsBookQueue(t, side, token, ids) && IsDepth(Fetched(RowsOf(t, ids), depth * 10), side, depth, levels)
  }

  /** In every run of the ledger the row limit is harmless: whatever the depth, the first
      level of a side is the best price among all its listed orders, and a side is empty
      only if nothing is listed. */
  lemma RunShowsBest(ops: seq<OrderRuns.Op>, quoteDecimals: nat, side: Side, token: Option<Token>, depth: nat,
                     levels: seq<Level>)
    requires depth > 0 && Shows(OrderRuns.Run(ops, quoteDecimals).book.rows, side, token, depth, levels)
    ensures var t := OrderRuns.Run(ops, quoteDecimals).book.rows;
            && (levels == [] <==> forall i :: 0 <= i < |t| ==> !Listed(t[i], side, token))
            && (levels != [] ==> exists i :: 0 <= i < |t| && Listed(t[i], side, token) && t[i].price == levels[0].price)
            && (levels != [] ==> forall i :: 0 <= i < |t| && Listed(t[i], side, token) ==>
               !Better(t[i].price, levels[0].price, side))
  {
    var t := OrderRuns.Run(ops, quoteDecimals).book.rows;
    var ids :| IsBookQueue(t, side, token, ids) && IsDepth(Fetched(RowsOf(t, ids), depth * 10), side, depth, levels);
    FirstLevelIsBest(Fetched(RowsOf(t, ids), depth * 10), side, depth, levels);
    if ids != [] {
      assert ids[0] in ids && Listed(t[ids[0]], side, token);
      OrderRuns.OpenMeansLive(ops, quoteDecimals, ids[0]);
      assert Fetched(RowsOf(t, ids), depth * 10)[0] == t[ids[0]];
      FirstIsBest(t, side, token, ids);
    }
  }

  lemma FirstIsBest(t: Table, side: Side, token: Option<Token>, ids: seq<nat>)
    requires IsBookQueue(t, side, token, ids) && ids != []
    ensures forall i :: 0 <= i < |t| && Listed(t[i], side, token) ==> !Better(t[i].price, t[ids[0]].price, side)
  {
    forall i | 0 <= i < |t| && Listed(t[i], side, token)
      ensures !Better(t[i].price, t[ids[0]].price, side)
    {
      var k :| 0 <= k < |ids| && ids[k] == i;
      if k > 0 {
        assert NotWorse(RowsOf(t, ids)[0], RowsOf(t, ids)[k], side);
      }
    }
  }

  // -------------------------------------------------------------------- the market price

  function MarketPrice(bids: seq<Level>, asks: seq<Level>, lastPrice: Option<Bps>): Bps {
    if bids != [] && asks != [] then (bids[0].price + asks[0].price) / 2
    else if bids != [] then bids[0].price
    else if asks != [] then asks[0].price
    else if lastPrice.Some? && lastPrice.value != 0 then lastPrice.value
    else 5000
  }

  /** Once matching has come to rest, the book of one token type shows a positive spread,
      and the floored mid-price lies inside it. */
  lemma QuietSpread(ops: seq<OrderRuns.Op>, quoteDecimals: nat, token: Token, depth: nat, bids: seq<Level>,
                    asks: seq<Level>, lastPrice: Option<Bps>)
    requires depth > 0 && Quiet(OrderRuns.Run(ops, quoteDecimals).book.rows)
    requires Shows(OrderRuns.Run(ops, quoteDecimals).book.rows, Buy, Some(token), depth, bids) && bids != []
    requires Shows(OrderRuns.Run(ops, quoteDecimals).book.rows, Sell, Some(token), depth, asks) && asks != []
    ensures bids[0].price <= MarketPrice(bids, asks, lastPrice) < asks[0].price
  {
    var t := OrderRuns.Run(ops, quoteDecimals).book.rows;
    RunShowsBest(ops, quoteDecimals, Buy, Some(token), depth, bids);
    RunShowsBest(ops, quoteDecimals, Sell, Some(token), depth, asks);
    var b :| 0 <= b < |t| && Listed(t[b], Buy, Some(token)) && t[b].price == bids[0].price;
    var s :| 0 <= s < |t| && Listed(t[s], Sell, Some(token)) && t[s].price == asks[0].price;
    OrderRuns.OpenMeansLive(ops, quoteDecimals, b);
    OrderRuns.OpenMeansLive(ops, quoteDecimals, s);
    assert !Crosses(t, b, s);
  }

  /** With one side only, the market price is the best price listed on it; with none, it is
      the last price, or one half. With both it is the floored middle. */
  lemma MarketPriceFollowsBook(ops: seq<OrderRuns.Op>, quoteDecimals: nat, token: Option<Token>, depth: nat,
                               bids: seq<Level>, asks: seq<Level>, lastPrice: Option<Bps>)
    requires depth > 0
    requires Shows(OrderRuns.Run(ops, quoteDecimals).book.rows, Buy, token, depth, bids)
    requires Shows(OrderRuns.Run(ops, quoteDecimals).book.rows, Sell, token, depth, asks)
    ensures var t, price := OrderRuns.Run(ops, quoteDecimals).book.rows, MarketPrice(bids, asks, lastPrice);
            && (asks == [] ==> forall i :: 0 <= i < |t| && Listed(t[i], Buy, token) ==> t[i].price <= price)
            && (bids == [] ==> forall i :: 0 <= i < |t| && Listed(t[i], Sell, token) ==> price <= t[i].price)
            && (bids != [] && asks == [] ==>
               exists i :: 0 <= i < |t| && Listed(t[i], Buy, token) && t[i].price == price)
            && (bids == [] && asks != [] ==>
               exists i :: 0 <= i < |t| && Listed(t[i], Sell, token) && t[i].price == price)
            && (bids != [] && asks != [] ==> 2 * price <= bids[0].price + asks[0].price <= 2 * price + 1)
            && (bids == [] && asks == [] ==> price == if lastPrice.GetOr(0) == 0 then 5000 else lastPrice.value)
  {
    RunShowsBest(ops, quoteDecimals, Buy, token, depth, bids);
    RunShowsBest(ops, quoteDecimals, Sell, token, depth, asks);
  }

  /** In every run the market price is positive, so the portfolio, which takes a price of
      zero for a missing one, always values a position at the market. */
  lemma MarketPriceIsPositive(ops: seq<OrderRuns.Op>, quoteDecimals: nat, token: Option<Token>, depth: nat,
                              bids: seq<Level>, asks: seq<Level>, lastPrice: Option<Bps>, entry: Bps)
    requires depth > 0
    requires Shows(OrderRuns.Run(ops, quoteDecimals).book.rows, Buy, token, depth, bids)
    requires Shows(OrderRuns.Run(ops, quoteDecimals).book.rows, Sell, token, depth, asks)
    ensures var price := MarketPrice(bids, asks, lastPrice);
            price > 0 && Liquidation.CurrentPrice(Some(price), entry) == price
  {
    OrderRuns.RunsKeepPrices(ops, quoteDecimals);
    RunShowsBest(ops, quoteDecimals, Buy, token, depth, bids);
    RunShowsBest(ops, quoteDecimals, Sell, token, depth, asks);
  }

  /** Every listed bid of one token is below every listed ask of the other. */
  ghost predicate TokensApart(t: Table) {
    forall b, s :: (0 <= b < |t| && Listed(t[b], Buy, None)) && (0 <= s < |t| && Listed(t[s], Sell, None))
      ==> TokenOf(t[b]) == TokenOf(t[s]) || t[b].price < t[s].price
  }

  /** Naming the token matters: once matching has come to rest, the mixed book shows its bid
      below its ask if and only if no bid of one token reaches an ask of the other. */
  lemma MixedSpreadExactly(ops: seq<OrderRuns.Op>, quoteDecimals: nat, depth: nat, bids: seq<Level>, asks: seq<Level>)
    requires depth > 0 && Quiet(OrderRuns.Run(ops, quoteDecimals).book.rows)
    requires Shows(OrderRuns.Run(ops, quoteDecimals).book.rows, Buy, None, depth, bids) && bids != []
    requires Shows(OrderRuns.Run(ops, quoteDecimals).book.rows, Sell, None, depth, asks) && asks != []
    ensures bids[0].price < asks[0].price <==> TokensApart(OrderRuns.Run(ops, quoteDecimals).book.rows)
  {
    var t := OrderRuns.Run(ops, quoteDecimals).book.rows;
    RunShowsBest(ops, quoteDecimals, Buy, None, depth, bids);
    RunShowsBest(ops, quoteDecimals, Sell, None, depth, asks);
    var b :| 0 <= b < |t| && Listed(t[b], Buy, None) && t[b].price == bids[0].price;
    var s :| 0 <= s < |t| && Listed(t[s], Sell, None) && t[s].price == asks[0].price;
    OrderRuns.OpenMeansLive(ops, quoteDecimals, b);
    OrderRuns.OpenMeansLive(ops, quoteDecimals, s);
    assert !Crosses(t, b, s);
  }

  const YES_BID := OrderLedger.Ticket(Buy, LimitOrder, 6000, 5, Some(Yes), "alice", 0)
  const NO_ASK := OrderLedger.Ticket(Sell, LimitOrder, 4000, 5, Some(No), "bob", 1)

  const MIXED: Table := [OrderLedger.NewOrder(YES_BID), OrderLedger.NewOrder(NO_ASK)]

  lemma MixedCrosses()
    ensures Quiet(MIXED)
    ensures Shows(MIXED, Buy, None, 1, [Level(6000, 5, 1)]) && Shows(MIXED, Sell, None, 1, [Level(4000, 5, 1)])
  {
    OneRowShows(MIXED, Buy, 0);
    OneRowShows(MIXED, Sell, 1);
    NeverMeet(MIXED[0], MIXED[1]);
  }

  /** Placing a YES bid and a NO ask reaches the other case. */
  lemma MixedBookCanCross(quoteDecimals: nat)
    ensures var t := OrderRuns.Run([OrderRuns.PlaceOp(YES_BID), OrderRuns.PlaceOp(NO_ASK)], quoteDecimals).book.rows;
            && t == MIXED && Quiet(t)
            && Shows(t, Buy, None, 1, [Level(6000, 5, 1)]) && Shows(t, Sell, None, 1, [Level(4000, 5, 1)])
  {
    OrderRuns.TwoPlaced(YES_BID, NO_ASK, quoteDecimals);
    MixedCrosses();
  }

  lemma NeverMeet(bid: Order, ask: Order)
    requires bid.side.Buy? && ask.side.Sell? && TokenOf(bid) != TokenOf(ask)
    ensures Quiet([bid, ask])
  {
  }

  lemma OneRowShows(t: Table, side: Side, id: nat)
    requires |t| == 2 && id < 2 && Listed(t[id], side, None) && !Listed(t[1 - id], side, None) && Remaining(t[id]) > 0
    ensures Shows(t, side, None, 1, [Level(t[id].price, Remaining(t[id]), 1)])
  {
    var levels := [Level(t[id].price, Remaining(t[id]), 1)];
    var rows := [t[id]];
    assert RowsOf(t, [id]) == rows && Fetched(rows, 10) == rows && rows[..0] == [];
    forall i | 0 <= i < |t|
      ensures i in [id] <==> Listed(t[i], side, None)
    {
      assert i == id || i == 1 - id;
    }
    assert IsBookQueue(t, side, None, [id]);
    assert forall p :: CountAt(rows, p) == if t[id].price == p then 1 else 0;
    assert levels[0].price == t[id].price && HasLevel(levels, t[id].price);
    assert IsDepth(rows, side, 1, levels);
    assert Shows(t, side, None, 1, levels);
  }
}
