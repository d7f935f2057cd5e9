/** What the racing keepers' books say about the chain's: shares on chain are conserved, a
    recorded fill is missing from a row exactly after a stale save, and a row says more than
    was settled only because of calls that were admitted with more than their match state
    holds (backend/src/services/orderKeeperService.ts:517-602, 756-825, 1041-1157 and
    1354-1398, programs/space-core/src/instructions/matching.rs:243-267, 455-457, 892-899
    and 1719-1724). */
module KeeperAccounting {
  import opened Orders
  import opened KeeperProtocol

  // --------------------------------------------------------------- shares on chain

  function TransitPart(chain: map<Pair, MatchState>, p: Pair, leg: Leg): nat {
    if p in chain && LegOf(p, Sell) == leg && !chain[p].sellExecuted then chain[p].size else 0
  }

  /** Shares of a sell order that went to buyers while its seller has yet to settle. */
  function InTransit(chain: map<Pair, MatchState>, bought: seq<Pair>, leg: Leg): nat {
    if bought == [] then 0
    else InTransit(chain, bought[..|bought| - 1], leg) + TransitPart(chain, bought[|bought| - 1], leg)
  }

  function QuantityOf(s: System, leg: Leg): nat {
    if leg in s.orders then s.orders[leg].quantity else 0
  }

  function FilledOnChain(s: System, leg: Leg): nat {
    if leg in s.orders then s.orders[leg].filled else 0
  }

  /** A match state lies between the prices of its two orders. */
  predicate Accepted(orders: map<Leg, ChainOrder>, p: Pair, price: Bps) {
    && LegOf(p, Buy) in orders && LegOf(p, Sell) in orders
    && orders[LegOf(p, Sell)].price <= price <= orders[LegOf(p, Buy)].price
  }

  ghost predicate PricesOk(s: System) {
    forall p :: p in s.chain ==> Accepted(s.orders, p, s.chain[p].price)
  }

  /** No order disappears or changes its price. */
  ghost predicate OrdersKept(orders: map<Leg, ChainOrder>, orders': map<Leg, ChainOrder>) {
    forall leg :: leg in orders ==> leg in orders' && orders'[leg].price == orders[leg].price
  }

  lemma AcceptedKept(orders: map<Leg, ChainOrder>, orders': map<Leg, ChainOrder>, p: Pair, price: Bps)
    requires OrdersKept(orders, orders') && Accepted(orders, p, price)
    ensures Accepted(orders', p, price)
  {
    assert LegOf(p, Buy) in orders';
    assert LegOf(p, Sell) in orders';
  }

  lemma OrdersKeptKeepsPrices(s: System, s': System)
    requires PricesOk(s) && OrdersKept(s.orders, s'.orders)
    requires forall p :: p in s'.chain ==> p in s.chain && s'.chain[p].price == s.chain[p].price
    ensures PricesOk(s')
  {
    forall p | p in s'.chain
      ensures Accepted(s'.orders, p, s'.chain[p].price)
    {
      AcceptedKept(s.orders, s'.orders, p, s.chain[p].price);
    }
  }

  /** The shares of a sell order are in escrow, in transit or paid for. */
  predicate SharesOk(s: System, leg: Leg) {
    && QuantityOf(s, leg) == EscrowOf(s.orders, leg) + InTransit(s.chain, s.buyersSettled, leg) + FilledOnChain(s, leg)
    && FilledOnChain(s, leg) == SettledSum(s.settlements, leg)
  }

  lemma {:induction false} TransitElsewhere(chain: map<Pair, MatchState>, chain': map<Pair, MatchState>,
                                            bought: seq<Pair>, leg: Leg)
    requires forall p :: p in bought ==> TransitPart(chain', p, leg) == TransitPart(chain, p, leg)
    ensures InTransit(chain', bought, leg) == InTransit(chain, bought, leg)
  {
    if bought != [] {
      TransitElsewhere(chain, chain', bought[..|bought| - 1], leg);
      assert bought[|bought| - 1] in bought;
    }
  }

  lemma {:induction false} TransitUpdate(chain: map<Pair, MatchState>, chain': map<Pair, MatchState>,
                                         bought: seq<Pair>, k: nat, leg: Leg)
    requires k < |bought| && forall i, j :: 0 <= i < j < |bought| ==> bought[i] != bought[j]
    requires forall p :: p != bought[k] ==> TransitPart(chain', p, leg) == TransitPart(chain, p, leg)
    ensures InTransit(chain', bought, leg) ==
            InTransit(chain, bought, leg) - TransitPart(chain, bought[k], leg) + TransitPart(chain', bought[k], leg)
  {
    var n := |bought| - 1;
    if k == n {
      TransitElsewhere(chain, chain', bought[..n], leg);
    } else {
      TransitUpdate(chain, chain', bought[..n], k, leg);
    }
  }

  lemma SettledSumAppend(xs: seq<Settlement>, x: Settlement, leg: Leg)
    ensures SettledSum(xs + [x], leg) == SettledSum(xs, leg) + if LegOf(x.pair, leg.side) == leg then x.size else 0
  {
    assert (xs + [x])[..|xs|] == xs;
  }

  /** Recording who saved what leaves the settled sums alone. */
  lemma {:induction false} SettledSumSame(xs: seq<Settlement>, ys: seq<Settlement>, leg: Leg)
    requires |xs| == |ys| && forall k :: 0 <= k < |xs| ==> xs[k].pair == ys[k].pair && xs[k].size == ys[k].size
    ensures SettledSum(xs, leg) == SettledSum(ys, leg)
  {
    if xs != [] {
      SettledSumSame(xs[..|xs| - 1], ys[..|ys| - 1], leg);
    }
  }

  lemma BuyerSettledKeepsShares(s: System, p: Pair, leg: Leg)
    requires Inv(s) && BuyerSettles(s, p) && leg.side.Sell? && SharesOk(s, leg)
    ensures SharesOk(BuyerSettled(s, p), leg)
  {
    var s' := BuyerSettled(s, p);
    assert p !in s.buyersSettled && !s.chain[p].sellExecuted;
    BuyerSettledTransit(s, p, leg);
    BuyerSettledOrders(s, p, leg);
  }

  lemma BuyerSettledTransit(s: System, p: Pair, leg: Leg)
    requires p in s.chain && p !in s.buyersSettled && !s.chain[p].sellExecuted
    ensures var s' := BuyerSettled(s, p);
            InTransit(s'.chain, s'.buyersSettled, leg) ==
            InTransit(s.chain, s.buyersSettled, leg) + if LegOf(p, Sell) == leg then s.chain[p].size else 0
  {
    var s' := BuyerSettled(s, p);
    TransitElsewhere(s.chain, s'.chain, s.buyersSettled, leg);
    assert s'.buyersSettled[..|s.buyersSettled|] == s.buyersSettled;
  }

  lemma BuyerSettledOrders(s: System, p: Pair, leg: Leg)
    requires BuyerSettles(s, p) && leg.side.Sell?
    ensures var s' := BuyerSettled(s, p);
            && QuantityOf(s', leg) == QuantityOf(s, leg) && FilledOnChain(s', leg) == FilledOnChain(s, leg)
            && EscrowOf(s'.orders, leg) ==
               EscrowOf(s.orders, leg) - if LegOf(p, Sell) == leg then s.chain[p].size else 0
  {
  }

  lemma SellerSettledKeepsShares(s: System, p: Pair, recorder: Option<nat>, leg: Leg)
    requires Inv(s) && PricesOk(s) && SellerSettles(s, p)
    requires leg.side.Sell? && SharesOk(s, leg)
    ensures SharesOk(SellerSettled(s, p, recorder), leg)
  {
    var s' := SellerSettled(s, p, recorder);
    var k :| 0 <= k < |s.buyersSettled| && s.buyersSettled[k] == p;
    TransitUpdate(s.chain, s'.chain, s.buyersSettled, k, leg);
    SettledSumAppend(s.settlements, Settlement(p, s.chain[p].size, recorder, None, None), leg);
  }

  lemma ValidatedKeepsShares(s: System, p: Pair, price: Bps, size: nat, leg: Leg)
    requires Inv(s) && p !in s.chain && SharesOk(s, leg)
    ensures SharesOk(Validated(s, p, price, size), leg)
  {
    TransitElsewhere(s.chain, Validated(s, p, price, size).chain, s.buyersSettled, leg);
  }

  /** The part of the system that is on chain is the same, except for who saved what. */
  ghost predicate SameOnChain(s: System, s': System) {
    && s'.orders == s.orders && s'.chain == s.chain && s'.buyersSettled == s.buyersSettled
    && |s'.settlements| == |s.settlements|
    && forall k :: 0 <= k < |s.settlements| ==>
         s'.settlements[k].pair == s.settlements[k].pair && s'.settlements[k].size == s.settlements[k].size
  }

  lemma SameOnChainKeepsShares(s: System, s': System, leg: Leg)
    requires SameOnChain(s, s') && SharesOk(s, leg)
    ensures SharesOk(s', leg)
  {
    SettledSumSame(s'.settlements, s.settlements, leg);
  }

  // What the four events that touch the chain do to it; all others leave it alone.

  function ChainStep(s: System, e: Event): System {
    match e
    case CreateOrder(leg, price, quantity) => OrderCreated(s, leg, price, quantity)
    case Validate(id, price, _) =>
      if Stands(s, id, Validating) && s.calls[id].pair !in s.chain
         && Validates(s, s.calls[id].pair, price, s.calls[id].size)
      then Validated(s, s.calls[id].pair, price, s.calls[id].size) else s
    case ExecuteBuyer(id, _) =>
      if Stands(s, id, ExecutingBuyer) && BuyerSettles(s, s.calls[id].pair)
      then BuyerSettled(s, s.calls[id].pair) else s
    case ExecuteSeller(id, confirmed) =>
      if Stands(s, id, ExecutingSeller) && SellerSettles(s, s.calls[id].pair)
      then SellerSettled(s, s.calls[id].pair, if confirmed then Some(id) else None) else s
    case _ => s
  }

  lemma ValidationTriedOnChain(s: System, id: nat, price: Bps, confirmed: bool)
    ensures SameOnChain(ChainStep(s, Validate(id, price, confirmed)), ValidationTried(s, id, price, confirmed))
  {
  }

  lemma BuyerTriedOnChain(s: System, id: nat, confirmed: bool)
    ensures SameOnChain(ChainStep(s, ExecuteBuyer(id, confirmed)), BuyerTried(s, id, confirmed))
  {
  }

  lemma SellerTriedOnChain(s: System, id: nat, confirmed: bool)
    ensures SameOnChain(ChainStep(s, ExecuteSeller(id, confirmed)), SellerTried(s, id, confirmed))
  {
  }

  lemma ChecksOnChain(s: System, id: nat, readable: bool, other: bool)
    ensures SameOnChain(s, Looked(s, id, readable, other))
    ensures SameOnChain(s, BuyerChecked(s, id, readable)) && SameOnChain(s, SellerChecked(s, id, readable))
  {
  }

  lemma ReadsOnChain(s: System, id: nat, readable: bool)
    ensures SameOnChain(s, PriceSynced(s, id, readable))
    ensures SameOnChain(s, BuyRowRead(s, id)) && SameOnChain(s, SellRowRead(s, id))
  {
  }

  lemma SavesOnChain(s: System, id: nat)
    ensures SameOnChain(s, BuyRowSaved(s, id)) && SameOnChain(s, SellRowSaved(s, id))
  {
  }

  lemma RowStepOnChain(s: System, e: Event)
    requires e.SyncPrice? || e.ReadBuyRow? || e.ReadSellRow? || e.SaveBuyRow? || e.SaveSellRow?
    ensures SameOnChain(s, Step(s, e))
  {
    match e
    case SyncPrice(id, readable) => ReadsOnChain(s, id, readable);
    case ReadBuyRow(id) => ReadsOnChain(s, id, false);
    case ReadSellRow(id) => ReadsOnChain(s, id, false);
    case SaveBuyRow(id) => SavesOnChain(s, id);
    case SaveSellRow(id) => SavesOnChain(s, id);
  }

  lemma CallStepOnChain(s: System, e: Event)
    requires e.Start? || e.Abandon? || e.Crash? || e.LookForMatchState? || e.CheckBuyer? || e.CheckSeller?
    ensures SameOnChain(s, Step(s, e))
  {
    match e
    case LookForMatchState(id, readable, ordersReadable) => ChecksOnChain(s, id, readable, ordersReadable);
    case CheckBuyer(id, readable) => ChecksOnChain(s, id, readable, false);
    case CheckSeller(id, readable) => ChecksOnChain(s, id, readable, false);
    case _ =>
  }

  lemma StepOnChain(s: System, e: Event)
    ensures SameOnChain(ChainStep(s, e), Step(s, e))
  {
    match e
    case CreateOrder(_, _, _) =>
    case Validate(id, price, confirmed) => ValidationTriedOnChain(s, id, price, confirmed);
    case ExecuteBuyer(id, confirmed) => BuyerTriedOnChain(s, id, confirmed);
    case ExecuteSeller(id, confirmed) => SellerTriedOnChain(s, id, confirmed);
    case SyncPrice(_, _) => RowStepOnChain(s, e);
    case ReadBuyRow(_) => RowStepOnChain(s, e);
    case ReadSellRow(_) => RowStepOnChain(s, e);
    case SaveBuyRow(_) => RowStepOnChain(s, e);
    case SaveSellRow(_) => RowStepOnChain(s, e);
    case _ => CallStepOnChain(s, e);
  }

  lemma OrderCreatedKeepsShares(s: System, created: Leg, price: Bps, quantity: nat, leg: Leg)
    requires SharesOk(s, leg)
    ensures SharesOk(OrderCreated(s, created, price, quantity), leg)
  {
  }

  lemma ChainStepKeepsShares(s: System, e: Event, leg: Leg)
    requires Inv(s) && leg.side.Sell? && SharesOk(s, leg) && PricesOk(s)
    ensures SharesOk(ChainStep(s, e), leg)
  {
    if ChainStep(s, e) != s {
      match e
      case CreateOrder(created, price, quantity) => OrderCreatedKeepsShares(s, created, price, quantity, leg);
      case Validate(id, price, _) => ValidatedKeepsShares(s, s.calls[id].pair, price, s.calls[id].size, leg);
      case ExecuteBuyer(id, _) => BuyerSettledKeepsShares(s, s.calls[id].pair, leg);
      case ExecuteSeller(id, confirmed) =>
        SellerSettledKeepsShares(s, s.calls[id].pair, if confirmed then Some(id) else None, leg);
    }
  }

  lemma StepKeepsShares(s: System, e: Event, leg: Leg)
    requires Inv(s) && leg.side.Sell? && SharesOk(s, leg) && PricesOk(s)
    ensures SharesOk(Step(s, e), leg)
  {
    ChainStepKeepsShares(s, e, leg);
    StepOnChain(s, e);
    SameOnChainKeepsShares(ChainStep(s, e), Step(s, e), leg);
  }

  lemma OrderCreatedKeepsPrices(s: System, leg: Leg, price: Bps, quantity: nat)
    requires PricesOk(s)
    ensures PricesOk(OrderCreated(s, leg, price, quantity))
  {
    OrdersKeptKeepsPrices(s, OrderCreated(s, leg, price, quantity));
  }

  lemma ValidatedKeepsPrices(s: System, p: Pair, price: Bps, size: nat)
    requires PricesOk(s) && Validates(s, p, price, size)
    ensures PricesOk(Validated(s, p, price, size))
  {
  }

  lemma SettlingKeepsPrices(s: System, p: Pair, recorder: Option<nat>)
    requires PricesOk(s) && p in s.chain
    ensures PricesOk(BuyerSettled(s, p)) && PricesOk(SellerSettled(s, p, recorder))
  {
    OrdersKeptKeepsPrices(s, BuyerSettled(s, p));
    OrdersKeptKeepsPrices(s, SellerSettled(s, p, recorder));
  }

  lemma ChainStepKeepsPrices(s: System, e: Event)
    requires PricesOk(s)
    ensures PricesOk(ChainStep(s, e))
  {
    if ChainStep(s, e) != s {
      match e
      case CreateOrder(leg, price, quantity) => OrderCreatedKeepsPrices(s, leg, price, quantity);
      case Validate(id, price, _) => ValidatedKeepsPrices(s, s.calls[id].pair, price, s.calls[id].size);
      case ExecuteBuyer(id, _) => SettlingKeepsPrices(s, s.calls[id].pair, None);
      case ExecuteSeller(id, confirmed) =>
        SettlingKeepsPrices(s, s.calls[id].pair, if confirmed then Some(id) else None);
    }
  }

  lemma StepKeepsPrices(s: System, e: Event)
    requires PricesOk(s)
    ensures PricesOk(Step(s, e))
  {
    ChainStepKeepsPrices(s, e);
    StepOnChain(s, e);
  }

  lemma {:induction false} RunsKeepPrices(events: seq<Event>)
    ensures PricesOk(Run(events))
  {
    if events != [] {
      RunsKeepPrices(events[..|events| - 1]);
      StepKeepsPrices(Run(events[..|events| - 1]), events[|events| - 1]);
    }
  }

  lemma {:induction false} RunsKeepShares(events: seq<Event>, leg: Leg)
    requires leg.side.Sell?
    ensures SharesOk(Run(events), leg)
  {
    if events != [] {
      var s := Run(events[..|events| - 1]);
      RunsKeepShares(events[..|events| - 1], leg);
      RunsKeepInv(events[..|events| - 1]);
      RunsKeepPrices(events[..|events| - 1]);
      StepKeepsShares(s, events[|events| - 1], leg);
    }
  }

  /** Conservation on chain: in every run the shares of a sell order are in its escrow, with
      buyers whose seller is not paid yet, or settled; so it is never settled beyond its
      quantity, however many match states were validated for it at once. */
  lemma SharesAreConserved(events: seq<Event>, leg: Leg)
    requires leg.side.Sell?
    ensures var s := Run(events);
            && QuantityOf(s, leg) ==
               EscrowOf(s.orders, leg) + InTransit(s.chain, s.buyersSettled, leg) + SettledSum(s.settlements, leg)
            && SettledSum(s.settlements, leg) <= QuantityOf(s, leg)
  {
    RunsKeepShares(events, leg);
  }

  /** In every run a pair settles at a price that both orders on chain accept. */
  lemma SettledPricesAccepted(events: seq<Event>, k: nat)
    requires k < |Run(events).settlements|
    ensures var s := Run(events);
            var p := s.settlements[k].pair;
            p in s.chain && Accepted(s.orders, p, s.chain[p].price)
  {
    RunsKeepInv(events);
    RunsKeepPrices(events);
  }

  // -------------------------------------------------------- buy orders, one match at a time

  /** The match state waits for the buyer's side, on this buy order. */
  predicate Waits(chain: map<Pair, MatchState>, p: Pair, buy: nat) {
    p in chain && p.buy == buy && !chain[p].buyExecuted
  }

  /** A buy order is within its quantity, also when the one match state that waits for it has
      settled. */
  ghost predicate BuyOk(s: System, buy: nat) {
    var leg := Leg(Buy, buy);
    && FilledOnChain(s, leg) <= QuantityOf(s, leg)
    && (forall p :: Waits(s.chain, p, buy) ==> FilledOnChain(s, leg) + s.chain[p].size <= QuantityOf(s, leg))
    && forall p, q :: Waits(s.chain, p, buy) && Waits(s.chain, q, buy) ==> p == q
  }

  /** A match state is created for the buy order while another one still waits for it. */
  ghost predicate ValidatesBeside(s: System, e: Event, buy: nat) {
    && e.Validate? && Stands(s, e.id, Validating) && s.calls[e.id].pair.buy == buy
    && s.calls[e.id].pair !in s.chain && Validates(s, s.calls[e.id].pair, e.price, s.calls[e.id].size)
    && exists p :: Waits(s.chain, p, buy)
  }

  lemma ValidatedKeepsBuy(s: System, p: Pair, price: Bps, size: nat, buy: nat)
    requires BuyOk(s, buy) && p !in s.chain && Validates(s, p, price, size)
    requires p.buy == buy ==> forall q :: !Waits(s.chain, q, buy)
    ensures BuyOk(Validated(s, p, price, size), buy)
  {
    var s' := Validated(s, p, price, size);
    assert forall q :: Waits(s'.chain, q, buy) ==> q == p || Waits(s.chain, q, buy);
  }

  lemma BuyerSettledKeepsBuy(s: System, p: Pair, buy: nat)
    requires BuyOk(s, buy) && p in s.chain && !s.chain[p].buyExecuted
    ensures BuyOk(BuyerSettled(s, p), buy)
  {
    var s', leg := BuyerSettled(s, p), Leg(Buy, buy);
    assert forall q :: Waits(s'.chain, q, buy) ==> q != p && Waits(s.chain, q, buy);
    if p.buy == buy {
      assert Waits(s.chain, p, buy);
      assert FilledOnChain(s', leg) <= FilledOnChain(s, leg) + s.chain[p].size;
    } else {
      assert FilledOnChain(s', leg) == FilledOnChain(s, leg);
    }
    assert QuantityOf(s', leg) == QuantityOf(s, leg);
  }

  lemma SellerSettledKeepsBuy(s: System, p: Pair, recorder: Option<nat>, buy: nat)
    requires BuyOk(s, buy) && p in s.chain
    ensures BuyOk(SellerSettled(s, p, recorder), buy)
  {
    var s' := SellerSettled(s, p, recorder);
    assert forall q :: Waits(s'.chain, q, buy) ==> Waits(s.chain, q, buy);
  }

  lemma OrderCreatedKeepsBuy(s: System, leg: Leg, price: Bps, quantity: nat, buy: nat)
    requires BuyOk(s, buy) && PricesOk(s)
    ensures BuyOk(OrderCreated(s, leg, price, quantity), buy)
  {
    if leg == Leg(Buy, buy) && leg !in s.orders {
      forall p | p in s.chain
        ensures p.buy != buy
      {
        assert Accepted(s.orders, p, s.chain[p].price);
      }
    }
  }

  lemma ChainStepKeepsBuy(s: System, e: Event, buy: nat)
    requires BuyOk(s, buy) && PricesOk(s) && !ValidatesBeside(s, e, buy)
    ensures BuyOk(ChainStep(s, e), buy)
  {
    if ChainStep(s, e) != s {
      match e
      case CreateOrder(leg, price, quantity) => OrderCreatedKeepsBuy(s, leg, price, quantity, buy);
      case Validate(id, price, _) => ValidatedKeepsBuy(s, s.calls[id].pair, price, s.calls[id].size, buy);
      case ExecuteBuyer(id, _) => BuyerSettledKeepsBuy(s, s.calls[id].pair, buy);
      case ExecuteSeller(id, confirmed) =>
        SellerSettledKeepsBuy(s, s.calls[id].pair, if confirmed then Some(id) else None, buy);
    }
  }

  lemma BesideBreaks(s: System, e: Event, buy: nat)
    requires ValidatesBeside(s, e, buy)
    ensures !BuyOk(ChainStep(s, e), buy)
  {
    var q :| Waits(s.chain, q, buy);
    var p, chain := s.calls[e.id].pair, ChainStep(s, e).chain;
    assert p != q && Waits(chain, p, buy) && Waits(chain, q, buy);
  }

  /** A step keeps a buy order within its quantity, with what waits for it, if and only if it
      does not validate a second match state beside one that waits. */
  lemma StepKeepsBuyExactly(s: System, e: Event, buy: nat)
    requires BuyOk(s, buy) && PricesOk(s)
    ensures BuyOk(Step(s, e), buy) <==> !ValidatesBeside(s, e, buy)
  {
    StepOnChain(s, e);
    if ValidatesBeside(s, e, buy) {
      BesideBreaks(s, e, buy);
    } else {
      ChainStepKeepsBuy(s, e, buy);
    }
    assert BuyOk(Step(s, e), buy) <==> BuyOk(ChainStep(s, e), buy);
  }

  ghost predicate OneAtATime(events: seq<Event>, buy: nat) {
    forall k :: 0 <= k < |events| ==> !ValidatesBeside(Run(events[..k]), events[k], buy)
  }

  lemma PrefixOneAtATime(events: seq<Event>, n: nat, buy: nat)
    requires OneAtATime(events, buy) && n <= |events|
    ensures OneAtATime(events[..n], buy)
  {
    forall k | 0 <= k < n
      ensures !ValidatesBeside(Run(events[..n][..k]), events[..n][k], buy)
    {
      assert events[..n][..k] == events[..k];
    }
  }

  lemma {:induction false} RunsKeepBuy(events: seq<Event>, buy: nat)
    requires OneAtATime(events, buy)
    ensures BuyOk(Run(events), buy)
  {
    if events != [] {
      var n := |events| - 1;
      PrefixOneAtATime(events, n, buy);
      RunsKeepBuy(events[..n], buy);
      RunsKeepPrices(events[..n]);
      assert !ValidatesBeside(Run(events[..n]), events[n], buy);
      StepKeepsBuyExactly(Run(events[..n]), events[n], buy);
    }
  }

  /** In every run that validates one match state at a time for a buy order, the order is
      never settled beyond its quantity. */
  lemma BuysWithinQuantity(events: seq<Event>, buy: nat)
    requires OneAtATime(events, buy)
    ensures FilledOnChain(Run(events), Leg(Buy, buy)) <= QuantityOf(Run(events), Leg(Buy, buy))
  {
    RunsKeepBuy(events, buy);
  }

  // ----------------------------------------------------------------- fills that get lost

  /** A save whose row no longer holds what the call has read from it. */
  predicate StaleSave(s: System, e: Event, leg: Leg) {
    || (e.SaveBuyRow? && AtSave(s, e.id, Buy) && LegOf(s.calls[e.id].pair, Buy) == leg
        && FilledOf(s, leg) != s.calls[e.id].pc.buySeen)
    || (e.SaveSellRow? && AtSave(s, e.id, Sell) && LegOf(s.calls[e.id].pair, Sell) == leg
        && FilledOf(s, leg) != s.calls[e.id].pc.sellSeen)
  }

  predicate Behind(s: System, leg: Leg) {
    FilledOf(s, leg) < SavedSum(s.settlements, leg)
  }

  /** The call has read this row and not yet saved it. */
  predicate HasRead(c: Call, leg: Leg) {
    && c.pc.Recording? && LegOf(c.pair, leg.side) == leg
    && if leg.side.Buy? then c.pc.stage.ReadingSell? || c.pc.stage.SavingBuy?
       else c.pc.stage.SavingBuy? || c.pc.stage.SavingSell?
  }

  function Seen(c: Call, leg: Leg): nat
    requires HasRead(c, leg)
  {
    if leg.side.Buy? then c.pc.buySeen else c.pc.sellSeen
  }

  /** Once a fill is lost, every read that is still to be saved lags strictly too. */
  ghost predicate ReadsLag(s: System, leg: Leg) {
    Behind(s, leg) ==> forall i :: 0 <= i < |s.calls| && HasRead(s.calls[i], leg) ==>
      Seen(s.calls[i], leg) < SavedSum(s.settlements, leg)
  }

  ghost predicate SizesPositive(s: System) {
    forall i :: 0 <= i < |s.calls| ==> s.calls[i].size > 0
  }

  /** The row and what has been saved to it are the same, and no read of it is new. */
  ghost predicate SameRow(s: System, s': System, leg: Leg) {
    && FilledOf(s', leg) == FilledOf(s, leg)
    && SavedSum(s'.settlements, leg) == SavedSum(s.settlements, leg)
    && forall i :: 0 <= i < |s'.calls| && HasRead(s'.calls[i], leg) ==>
         i < |s.calls| && HasRead(s.calls[i], leg) && Seen(s'.calls[i], leg) == Seen(s.calls[i], leg)
  }

  lemma SellerTriedReadsNone(s: System, id: nat, confirmed: bool, leg: Leg, i: nat)
    requires i < |SellerTried(s, id, confirmed).calls| && HasRead(SellerTried(s, id, confirmed).calls[i], leg)
    ensures i < |s.calls| && SellerTried(s, id, confirmed).calls[i] == s.calls[i]
  {
  }

  lemma SellerTriedKeepsRows(s: System, id: nat, confirmed: bool, leg: Leg)
    ensures SameRow(s, SellerTried(s, id, confirmed), leg)
  {
    var s' := SellerTried(s, id, confirmed);
    if Stands(s, id, ExecutingSeller) && SellerSettles(s, s.calls[id].pair) {
      var p := s.calls[id].pair;
      var recorder := if confirmed then Some(id) else None;
      SavedSumAppend(s.settlements, Settlement(p, s.chain[p].size, recorder, None, None), leg);
    }
    forall i | 0 <= i < |s'.calls| && HasRead(s'.calls[i], leg)
      ensures i < |s.calls| && s'.calls[i] == s.calls[i]
    {
      SellerTriedReadsNone(s, id, confirmed, leg, i);
    }
  }

  /** No row is touched, and a call that is recording did so before or has just begun. */
  ghost predicate RowsUntouched(s: System, s': System) {
    && s'.filled == s.filled && s'.settlements == s.settlements
    && forall i :: 0 <= i < |s'.calls| && s'.calls[i].pc.Recording? ==>
         i < |s.calls| && s'.calls[i].pair == s.calls[i].pair
           && (s'.calls[i].pc == s.calls[i].pc || s'.calls[i].pc.stage.ReadingBuy?)
  }

  lemma RowsUntouchedSame(s: System, s': System, leg: Leg)
    requires RowsUntouched(s, s')
    ensures SameRow(s, s', leg)
  {
  }

  lemma CallStepsTouchNoRow(s: System, e: Event)
    requires e.CreateOrder? || e.Start? || e.Crash? || e.Abandon? || e.SyncPrice?
    ensures RowsUntouched(s, Step(s, e))
  {
  }

  lemma LookedTouchesNoRow(s: System, id: nat, readable: bool, ordersReadable: bool)
    ensures RowsUntouched(s, Looked(s, id, readable, ordersReadable))
  {
  }

  lemma ChecksTouchNoRow(s: System, id: nat, readable: bool)
    ensures RowsUntouched(s, BuyerChecked(s, id, readable)) && RowsUntouched(s, SellerChecked(s, id, readable))
  {
  }

  lemma ValidationTriedTouchesNoRow(s: System, id: nat, price: Bps, confirmed: bool)
    ensures RowsUntouched(s, ValidationTried(s, id, price, confirmed))
  {
  }

  lemma BuyerTriedTouchesNoRow(s: System, id: nat, confirmed: bool)
    ensures RowsUntouched(s, BuyerTried(s, id, confirmed))
  {
  }

  lemma OtherStepsTouchNoRow(s: System, e: Event)
    requires !e.ExecuteSeller? && !e.ReadBuyRow? && !e.ReadSellRow? && !e.SaveBuyRow? && !e.SaveSellRow?
    ensures RowsUntouched(s, Step(s, e))
  {
    match e
    case LookForMatchState(id, readable, ordersReadable) => LookedTouchesNoRow(s, id, readable, ordersReadable);
    case CheckBuyer(id, readable) => ChecksTouchNoRow(s, id, readable);
    case CheckSeller(id, readable) => ChecksTouchNoRow(s, id, readable);
    case Validate(id, price, confirmed) => ValidationTriedTouchesNoRow(s, id, price, confirmed);
    case ExecuteBuyer(id, confirmed) => BuyerTriedTouchesNoRow(s, id, confirmed);
    case _ => CallStepsTouchNoRow(s, e);
  }

  lemma SameRowLags(s: System, s': System, leg: Leg)
    requires SameRow(s, s', leg) && ReadsLag(s, leg)
    ensures ReadsLag(s', leg) && (Behind(s', leg) <==> Behind(s, leg))
  {
  }

  lemma BuyRowReadLags(s: System, id: nat, leg: Leg)
    requires ReadsLag(s, leg)
    ensures ReadsLag(BuyRowRead(s, id), leg) && (Behind(BuyRowRead(s, id), leg) <==> Behind(s, leg))
  {
  }

  lemma SellRowReadLags(s: System, id: nat, leg: Leg)
    requires ReadsLag(s, leg)
    ensures ReadsLag(SellRowRead(s, id), leg) && (Behind(SellRowRead(s, id), leg) <==> Behind(s, leg))
  {
  }

  /** A save moves the row to what was read plus the size, and the sum of saves by the size. */
  lemma SaveLags(s: System, s': System, id: nat, side: Side, leg: Leg)
    requires Inv(s) && SavesRow(s, s', id, side) && s.calls[id].size > 0 && ReadsLag(s, leg)
    ensures var own := LegOf(s.calls[id].pair, side) == leg;
            var seen := if side.Buy? then s.calls[id].pc.buySeen else s.calls[id].pc.sellSeen;
            && ReadsLag(s', leg)
            && (Behind(s', leg) <==> Behind(s, leg) || (own && FilledOf(s, leg) != seen))
  {
    var c := s.calls[id];
    var k := c.pc.slot;
    SavedSumUpdate(s.settlements, k, s'.settlements[k], leg);
    assert FilledOf(s, leg) <= SavedSum(s.settlements, leg);
    forall i | 0 <= i < |s'.calls| && HasRead(s'.calls[i], leg)
      ensures HasRead(s.calls[i], leg)
              && Seen(s'.calls[i], leg) == Seen(s.calls[i], leg) <= SavedSum(s.settlements, leg)
    {
      assert SlotOk(s, i);
    }
    assert HasRead(c, LegOf(c.pair, side));
  }

  lemma BuyRowSavedLags(s: System, id: nat, leg: Leg)
    requires Inv(s) && SizesPositive(s) && ReadsLag(s, leg)
    ensures ReadsLag(BuyRowSaved(s, id), leg)
    ensures Behind(BuyRowSaved(s, id), leg) <==> Behind(s, leg) || StaleSave(s, SaveBuyRow(id), leg)
  {
    if AtSave(s, id, Buy) {
      assert SlotOk(s, id);
      BuyRowSavedSaves(s, id);
      SaveLags(s, BuyRowSaved(s, id), id, Buy, leg);
    }
  }

  lemma SellRowSavedLags(s: System, id: nat, leg: Leg)
    requires Inv(s) && SizesPositive(s) && ReadsLag(s, leg)
    ensures ReadsLag(SellRowSaved(s, id), leg)
    ensures Behind(SellRowSaved(s, id), leg) <==> Behind(s, leg) || StaleSave(s, SaveSellRow(id), leg)
  {
    if AtSave(s, id, Sell) {
      assert SlotOk(s, id);
      SellRowSavedSaves(s, id);
      SaveLags(s, SellRowSaved(s, id), id, Sell, leg);
    }
  }

  lemma StepLosesExactly(s: System, e: Event, leg: Leg)
    requires Inv(s) && SizesPositive(s) && ReadsLag(s, leg)
    ensures ReadsLag(Step(s, e), leg)
    ensures Behind(Step(s, e), leg) <==> Behind(s, leg) || StaleSave(s, e, leg)
  {
    match e
    case ExecuteSeller(id, confirmed) =>
      SellerTriedKeepsRows(s, id, confirmed, leg);
      SameRowLags(s, Step(s, e), leg);
    case ReadBuyRow(id) => BuyRowReadLags(s, id, leg);
    case ReadSellRow(id) => SellRowReadLags(s, id, leg);
    case SaveBuyRow(id) => BuyRowSavedLags(s, id, leg);
    case SaveSellRow(id) => SellRowSavedLags(s, id, leg);
    case _ =>
      OtherStepsTouchNoRow(s, e);
      RowsUntouchedSame(s, Step(s, e), leg);
      SameRowLags(s, Step(s, e), leg);
  }

  predicate StaleAt(events: seq<Event>, k: nat, leg: Leg) {
    k < |events| && StaleSave(Run(events[..k]), events[k], leg)
  }

  ghost predicate HasStaleSave(events: seq<Event>, leg: Leg) {
    exists k: nat :: StaleAt(events, k, leg)
  }

  lemma StaleAtPrefix(events: seq<Event>, n: nat, k: nat, leg: Leg)
    requires k < n <= |events|
    ensures StaleAt(events[..n], k, leg) <==> StaleAt(events, k, leg)
  {
    assert events[..n][..k] == events[..k];
  }

  lemma LastStaleSave(events: seq<Event>, leg: Leg)
    requires events != []
    ensures var n := |events| - 1;
            HasStaleSave(events, leg) <==> HasStaleSave(events[..n], leg) || StaleAt(events, n, leg)
  {
    var n := |events| - 1;
    if HasStaleSave(events[..n], leg) {
      var k: nat :| StaleAt(events[..n], k, leg);
      StaleAtPrefix(events, n, k, leg);
    }
    if HasStaleSave(events, leg) {
      var k: nat :| StaleAt(events, k, leg);
      if k < n {
        StaleAtPrefix(events, n, k, leg);
      }
    }
  }

  lemma {:induction false} RunsKeepLag(events: seq<Event>, leg: Leg)
    ensures var s := Run(events);
            (Behind(s, leg) <==> HasStaleSave(events, leg)) && ReadsLag(s, leg) && SizesPositive(s)
  {
    if events != [] {
      var n := |events| - 1;
      RunsKeepLag(events[..n], leg);
      RunsKeepInv(events[..n]);
      StepKeepsCalls(Run(events[..n]), events[n]);
      StepLosesExactly(Run(events[..n]), events[n], leg);
      LastStaleSave(events, leg);
    }
  }

  /** In every run a recorded fill is missing from its row if and only if some save to that
      row was stale; otherwise the row holds exactly what was recorded for it. */
  lemma FillsLostExactly(events: seq<Event>, leg: Leg)
    ensures var s := Run(events);
            && FilledOf(s, leg) <= SavedSum(s.settlements, leg)
            && (FilledOf(s, leg) < SavedSum(s.settlements, leg) <==> HasStaleSave(events, leg))
  {
    RunsKeepInv(events);
    RunsKeepLag(events, leg);
  }

  // ------------------------------------------------------ calls that carry more than settles

  /** The call gets past step 1 with more than the match state holds: it found one with less
      (only the price is copied), or had its own cut down to what remained on chain. The
      keeper could check both before it goes on. */
  predicate AdmitsOversized(s: System, e: Event) {
    match e
    case LookForMatchState(id, readable, ordersReadable) =>
      && Stands(s, id, Entered) && s.calls[id].pair in s.chain
      && s.calls[id].size > s.chain[s.calls[id].pair].size
      && Looked(s, id, readable, ordersReadable).calls[id].pc.CheckingBuyer?
    case Validate(id, price, confirmed) =>
      && Stands(s, id, Validating)
      && var c := s.calls[id];
         if c.pair in s.chain then c.size > s.chain[c.pair].size
         else
           && confirmed && Validates(s, c.pair, price, c.size)
           && (c.size > RemainingOnChain(s, LegOf(c.pair, Buy)) || c.size > RemainingOnChain(s, LegOf(c.pair, Sell)))
    case _ => false
  }

  predicate Fits(s: System, c: Call) {
    PastValidation(c) ==> c.pair in s.chain && c.size <= s.chain[c.pair].size
  }

  ghost predicate CallsFit(s: System) {
    forall i :: 0 <= i < |s.calls| ==> Fits(s, s.calls[i])
  }

  /** The call that saw a settlement land carries no more than was settled. */
  predicate RecorderFits(s: System, x: Settlement) {
    x.recorder.Some? ==> x.recorder.value < |s.calls| && s.calls[x.recorder.value].size <= x.size
  }

  ghost predicate RecordersFit(s: System) {
    forall k :: 0 <= k < |s.settlements| ==> RecorderFits(s, s.settlements[k])
  }

  /** Calls keep their pair and size, and a new one has a positive size. */
  ghost predicate CallsPersist(s: System, s': System) {
    && |s.calls| <= |s'.calls|
    && (forall i :: 0 <= i < |s.calls| ==> s'.calls[i].pair == s.calls[i].pair && s'.calls[i].size == s.calls[i].size)
    && forall i :: |s.calls| <= i < |s'.calls| ==> s'.calls[i].size > 0
  }

  lemma LookedKeepsCalls(s: System, id: nat, readable: bool, ordersReadable: bool)
    ensures CallsPersist(s, Looked(s, id, readable, ordersReadable))
  {
  }

  lemma ChecksKeepCalls(s: System, id: nat, readable: bool)
    ensures CallsPersist(s, BuyerChecked(s, id, readable)) && CallsPersist(s, SellerChecked(s, id, readable))
  {
  }

  lemma ValidationTriedKeepsCalls(s: System, id: nat, price: Bps, confirmed: bool)
    ensures CallsPersist(s, ValidationTried(s, id, price, confirmed))
  {
  }

  lemma BuyerTriedKeepsCalls(s: System, id: nat, confirmed: bool)
    ensures CallsPersist(s, BuyerTried(s, id, confirmed))
  {
  }

  lemma SellerTriedKeepsCalls(s: System, id: nat, confirmed: bool)
    ensures CallsPersist(s, SellerTried(s, id, confirmed))
  {
  }

  lemma ReadsKeepCalls(s: System, id: nat, readable: bool)
    ensures CallsPersist(s, PriceSynced(s, id, readable))
    ensures CallsPersist(s, BuyRowRead(s, id)) && CallsPersist(s, SellRowRead(s, id))
  {
  }

  lemma SavesKeepCalls(s: System, id: nat)
    ensures CallsPersist(s, BuyRowSaved(s, id)) && CallsPersist(s, SellRowSaved(s, id))
  {
  }

  lemma StepKeepsCalls(s: System, e: Event)
    ensures CallsPersist(s, Step(s, e))
  {
    match e
    case LookForMatchState(id, readable, ordersReadable) => LookedKeepsCalls(s, id, readable, ordersReadable);
    case CheckBuyer(id, readable) => ChecksKeepCalls(s, id, readable);
    case CheckSeller(id, readable) => ChecksKeepCalls(s, id, readable);
    case Validate(id, price, confirmed) => ValidationTriedKeepsCalls(s, id, price, confirmed);
    case ExecuteBuyer(id, confirmed) => BuyerTriedKeepsCalls(s, id, confirmed);
    case ExecuteSeller(id, confirmed) => SellerTriedKeepsCalls(s, id, confirmed);
    case SyncPrice(id, readable) => ReadsKeepCalls(s, id, readable);
    case ReadBuyRow(id) => ReadsKeepCalls(s, id, false);
    case ReadSellRow(id) => ReadsKeepCalls(s, id, false);
    case SaveBuyRow(id) => SavesKeepCalls(s, id);
    case SaveSellRow(id) => SavesKeepCalls(s, id);
    case _ =>
  }

  lemma StepKeepsMatchSizes(s: System, e: Event, p: Pair)
    requires p in s.chain
    ensures p in Step(s, e).chain && Step(s, e).chain[p].size == s.chain[p].size
  {
    StepOnChain(s, e);
    assert p in ChainStep(s, e).chain && ChainStep(s, e).chain[p].size == s.chain[p].size;
  }

  /** The call `i` got past validation by this very step. */
  predicate Admitted(s: System, s': System, i: nat) {
    i < |s'.calls| && PastValidation(s'.calls[i]) && !(i < |s.calls| && PastValidation(s.calls[i]))
  }

  lemma ChecksAdmitNone(s: System, id: nat, readable: bool, i: nat)
    ensures !Admitted(s, BuyerChecked(s, id, readable), i) && !Admitted(s, SellerChecked(s, id, readable), i)
  {
  }

  lemma SettlingAdmitsNone(s: System, id: nat, confirmed: bool, i: nat)
    ensures !Admitted(s, BuyerTried(s, id, confirmed), i) && !Admitted(s, SellerTried(s, id, confirmed), i)
  {
  }

  lemma ReadsAdmitNone(s: System, id: nat, readable: bool, i: nat)
    ensures !Admitted(s, PriceSynced(s, id, readable), i)
    ensures !Admitted(s, BuyRowRead(s, id), i) && !Admitted(s, SellRowRead(s, id), i)
  {
  }

  lemma SavesAdmitNone(s: System, id: nat, i: nat)
    ensures !Admitted(s, BuyRowSaved(s, id), i) && !Admitted(s, SellRowSaved(s, id), i)
  {
  }

  lemma LookedAdmitsFound(s: System, id: nat, readable: bool, ordersReadable: bool, i: nat)
    requires Admitted(s, Looked(s, id, readable, ordersReadable), i)
    ensures i == id && Stands(s, id, Entered) && s.calls[id].pair in s.chain
    ensures var s' := Looked(s, id, readable, ordersReadable);
            && s'.chain == s.chain && s'.calls[i].pc.CheckingBuyer?
            && s'.calls[i].pair == s.calls[i].pair && s'.calls[i].size == s.calls[i].size
  {
  }

  lemma LookedAdmits(s: System, id: nat, readable: bool, ordersReadable: bool, i: nat)
    requires Admitted(s, Looked(s, id, readable, ordersReadable), i)
    ensures !AdmitsOversized(s, LookForMatchState(id, readable, ordersReadable)) <==>
            Fits(Looked(s, id, readable, ordersReadable), Looked(s, id, readable, ordersReadable).calls[i])
  {
    LookedAdmitsFound(s, id, readable, ordersReadable, i);
  }

  lemma ValidationAdmitsFound(s: System, id: nat, price: Bps, confirmed: bool, i: nat)
    requires Stands(s, id, Validating) && s.calls[id].pair in s.chain
    requires Admitted(s, ValidationTried(s, id, price, confirmed), i)
    ensures i == id && (s.calls[id].size <= s.chain[s.calls[id].pair].size <==>
                        Fits(ValidationTried(s, id, price, confirmed),
                          ValidationTried(s, id, price, confirmed).calls[i]))
  {
  }

  lemma ValidationAdmitsNew(s: System, id: nat, price: Bps, confirmed: bool, i: nat)
    requires Stands(s, id, Validating) && s.calls[id].pair !in s.chain
    requires Admitted(s, ValidationTried(s, id, price, confirmed), i)
    ensures var c := s.calls[id];
            && i == id && confirmed && Validates(s, c.pair, price, c.size)
            && (c.size <= FillQuantity(s, c.pair, c.size) <==>
                Fits(ValidationTried(s, id, price, confirmed), ValidationTried(s, id, price, confirmed).calls[i]))
  {
  }

  lemma ValidationAdmits(s: System, id: nat, price: Bps, confirmed: bool, i: nat)
    requires Admitted(s, ValidationTried(s, id, price, confirmed), i)
    ensures !AdmitsOversized(s, Validate(id, price, confirmed)) <==>
            Fits(ValidationTried(s, id, price, confirmed), ValidationTried(s, id, price, confirmed).calls[i])
  {
    assert Stands(s, id, Validating);
    if s.calls[id].pair in s.chain {
      ValidationAdmitsFound(s, id, price, confirmed, i);
    } else {
      ValidationAdmitsNew(s, id, price, confirmed, i);
    }
  }

  lemma StepAdmits(s: System, e: Event, i: nat)
    requires Admitted(s, Step(s, e), i)
    ensures Fits(Step(s, e), Step(s, e).calls[i]) <==> !AdmitsOversized(s, e)
  {
    match e
    case LookForMatchState(id, readable, ordersReadable) => LookedAdmits(s, id, readable, ordersReadable, i);
    case Validate(id, price, confirmed) => ValidationAdmits(s, id, price, confirmed, i);
    case CheckBuyer(id, readable) => ChecksAdmitNone(s, id, readable, i);
    case CheckSeller(id, readable) => ChecksAdmitNone(s, id, readable, i);
    case ExecuteBuyer(id, confirmed) => SettlingAdmitsNone(s, id, confirmed, i);
    case ExecuteSeller(id, confirmed) => SettlingAdmitsNone(s, id, confirmed, i);
    case SyncPrice(id, readable) => ReadsAdmitNone(s, id, readable, i);
    case ReadBuyRow(id) => ReadsAdmitNone(s, id, false, i);
    case ReadSellRow(id) => ReadsAdmitNone(s, id, false, i);
    case SaveBuyRow(id) => SavesAdmitNone(s, id, i);
    case SaveSellRow(id) => SavesAdmitNone(s, id, i);
    case _ =>
  }

  lemma OversizedIsAdmitted(s: System, e: Event)
    requires AdmitsOversized(s, e)
    ensures Admitted(s, Step(s, e), e.id)
  {
  }

  /** A step keeps all calls past validation within their match states if and only if it
      does not admit one that carries more. */
  lemma StepKeepsCallsFitExactly(s: System, e: Event)
    requires CallsFit(s)
    ensures CallsFit(Step(s, e)) <==> !AdmitsOversized(s, e)
  {
    var s' := Step(s, e);
    if AdmitsOversized(s, e) {
      OversizedIsAdmitted(s, e);
      StepAdmits(s, e, e.id);
      assert !Fits(s', s'.calls[e.id]);
    } else {
      StepKeepsCalls(s, e);
      forall i | 0 <= i < |s'.calls|
        ensures Fits(s', s'.calls[i])
      {
        if Admitted(s, s', i) {
          StepAdmits(s, e, i);
        } else if PastValidation(s'.calls[i]) {
          assert Fits(s, s.calls[i]);
          StepKeepsMatchSizes(s, e, s.calls[i].pair);
        }
      }
    }
  }

  lemma SellerTriedKeepsRecorders(s: System, id: nat, confirmed: bool)
    requires CallsFit(s) && RecordersFit(s)
    ensures RecordersFit(SellerTried(s, id, confirmed))
  {
    var s' := SellerTried(s, id, confirmed);
    if Stands(s, id, ExecutingSeller) {
      assert Fits(s, s.calls[id]);
    }
    forall k | 0 <= k < |s'.settlements|
      ensures RecorderFits(s', s'.settlements[k])
    {
      if k < |s.settlements| {
        assert RecorderFits(s, s.settlements[k]);
      }
    }
  }

  lemma OtherStepsKeepRecorders(s: System, e: Event)
    requires !e.ExecuteSeller? && RecordersFit(s)
    ensures RecordersFit(Step(s, e))
  {
    var s' := Step(s, e);
    StepKeepsCalls(s, e);
    forall k | 0 <= k < |s'.settlements|
      ensures RecorderFits(s', s'.settlements[k])
    {
      OtherStepsSettleNone(s, e);
      assert RecorderFits(s, s.settlements[k]);
    }
  }

  lemma OtherStepsSettleNone(s: System, e: Event)
    requires !e.ExecuteSeller?
    ensures var s' := Step(s, e);
            && |s'.settlements| == |s.settlements|
            && forall k :: 0 <= k < |s.settlements| ==>
                 s'.settlements[k].recorder == s.settlements[k].recorder
                   && s'.settlements[k].size == s.settlements[k].size
  {
    StepOnChain(s, e);
    StepExtends(s, e);
  }

  lemma StepKeepsRecorders(s: System, e: Event)
    requires CallsFit(s) && RecordersFit(s)
    ensures RecordersFit(Step(s, e))
  {
    if e.ExecuteSeller? {
      SellerTriedKeepsRecorders(s, e.id, e.confirmed);
    } else {
      OtherStepsKeepRecorders(s, e);
    }
  }

  ghost predicate NoneOversized(events: seq<Event>) {
    forall k :: 0 <= k < |events| ==> !AdmitsOversized(Run(events[..k]), events[k])
  }

  lemma PrefixNoneOversized(events: seq<Event>, n: nat)
    requires NoneOversized(events) && n <= |events|
    ensures NoneOversized(events[..n])
  {
    forall k | 0 <= k < n
      ensures !AdmitsOversized(Run(events[..n][..k]), events[..n][k])
    {
      assert events[..n][..k] == events[..k];
    }
  }

  lemma {:induction false} RunsFit(events: seq<Event>)
    requires NoneOversized(events)
    ensures CallsFit(Run(events)) && RecordersFit(Run(events))
  {
    if events != [] {
      var n := |events| - 1;
      var s, e := Run(events[..n]), events[n];
      PrefixNoneOversized(events, n);
      RunsFit(events[..n]);
      assert !AdmitsOversized(Run(events[..n]), events[n]);
      StepKeepsCallsFitExactly(s, e);
      StepKeepsRecorders(s, e);
    }
  }

  /** In every run in which no call is admitted with more than its match state holds, no
      record and no row exceeds what the chain has settled. */
  lemma RowsWithinSettled(events: seq<Event>, leg: Leg)
    requires NoneOversized(events)
    ensures var s := Run(events);
            SizesAgree(s.settlements) && FilledOf(s, leg) <= SettledSum(s.settlements, leg)
  {
    var s := Run(events);
    RunsFit(events);
    RunsKeepInv(events);
    forall k, side | 0 <= k < |s.settlements| && SavedAt(s.settlements[k], side).Some?
      ensures SavedAt(s.settlements[k], side).value <= s.settlements[k].size
    {
      assert RecorderFits(s, s.settlements[k]);
    }
    FilledNeverOverCounts(events, leg);
  }
}
