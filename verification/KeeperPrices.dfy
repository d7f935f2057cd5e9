/** Which price a keeper's call carries: the one it started with until it takes over that of
    the match state, after its look, after a validation, or in the final read before the rows
    are written (backend/src/services/orderKeeperService.ts:517-602, 756-803 and 1337-1350). */
module KeeperPrices {
  import opened Orders
  import opened KeeperProtocol
  import opened KeeperAccounting

  // ------------------------------------------------------------------- what one event does

  /** A look at an existing match state: the call goes on unless it read that the seller is
      settled or an order is filled; having read, it carries the match state's price. */
  lemma LookTakesPrice(s: System, id: nat, readable: bool, ordersReadable: bool)
    requires Stands(s, id, Entered) && s.calls[id].pair in s.chain
    ensures var s' := Looked(s, id, readable, ordersReadable);
            var c, c' := s.calls[id], s'.calls[id];
            var m := s.chain[c.pair];
            var filled := OrderFilled(s, LegOf(c.pair, Buy)) || OrderFilled(s, LegOf(c.pair, Sell));
            && c'.pc == (if readable && (m.sellExecuted || (ordersReadable && filled)) then Finished else CheckingBuyer)
            && (c'.pc.CheckingBuyer? ==> c'.price == if readable && m.price > 0 then m.price else c.price)
  {
  }

  /** A validation, whether it creates the match state or finds one. */
  lemma ValidationTakesPrice(s: System, id: nat, price: Bps, confirmed: bool)
    requires Stands(s, id, Validating)
    ensures var s' := ValidationTried(s, id, price, confirmed);
            var c, c' := s.calls[id], s'.calls[id];
            && (c'.pc.CheckingBuyer? || c'.pc.Finished?)
            && (c'.pc.CheckingBuyer? ==>
                && c.pair in s'.chain
                && c'.price == if s'.chain[c.pair].price > 0 then s'.chain[c.pair].price else c.price)
  {
  }

  /** The final price read. */
  lemma SyncTakesPrice(s: System, id: nat, readable: bool)
    requires id < |s.calls| && InStage(s.calls[id], Syncing) && s.calls[id].pair in s.chain
    ensures var s' := PriceSynced(s, id, readable);
            var c, m := s.calls[id], s.chain[s.calls[id].pair];
            && InStage(s'.calls[id], ReadingBuy)
            && s'.calls[id].price == if readable && m.price > 0 then m.price else c.price
  {
  }

  // --------------------------------------------------------------------------- every event

  /** In this event the call learns the match state's price. */
  predicate Learns(s: System, e: Event, i: nat) {
    match e
    case LookForMatchState(id, readable, _) => id == i && readable && Stands(s, i, Entered)
      && s.calls[i].pair in s.chain
    case Validate(id, _, _) => id == i && Stands(s, i, Validating)
    case SyncPrice(id, readable) => id == i && readable && i < |s.calls| && InStage(s.calls[i], Syncing)
    case _ => false
  }

  predicate CarriesPrice(s: System, i: nat) {
    && i < |s.calls| && s.calls[i].pair in s.chain
    && (s.chain[s.calls[i].pair].price > 0 ==> s.calls[i].price == s.chain[s.calls[i].pair].price)
  }

  /** In this event the call learns the price and goes on. */
  predicate LearnsAndGoesOn(s: System, e: Event, i: nat) {
    Learns(s, e, i) && i < |Step(s, e).calls| && PastValidation(Step(s, e).calls[i])
  }

  lemma LookCarries(s: System, id: nat, readable: bool, ordersReadable: bool)
    requires LearnsAndGoesOn(s, LookForMatchState(id, readable, ordersReadable), id)
    ensures CarriesPrice(Looked(s, id, readable, ordersReadable), id)
  {
    LookTakesPrice(s, id, readable, ordersReadable);
  }

  lemma ValidationCarries(s: System, id: nat, price: Bps, confirmed: bool)
    requires LearnsAndGoesOn(s, Validate(id, price, confirmed), id)
    ensures CarriesPrice(ValidationTried(s, id, price, confirmed), id)
  {
    ValidationTakesPrice(s, id, price, confirmed);
  }

  lemma SyncCarries(s: System, id: nat, readable: bool)
    requires LearnsAndGoesOn(s, SyncPrice(id, readable), id) && s.calls[id].pair in s.chain
    ensures CarriesPrice(PriceSynced(s, id, readable), id)
  {
    SyncTakesPrice(s, id, readable);
  }

  lemma LearningCarries(s: System, e: Event, i: nat)
    requires LearnsAndGoesOn(s, e, i) && i < |s.calls| && (e.SyncPrice? ==> s.calls[i].pair in s.chain)
    ensures CarriesPrice(Step(s, e), i)
  {
    match e
    case LookForMatchState(id, readable, ordersReadable) => LookCarries(s, id, readable, ordersReadable);
    case Validate(id, price, confirmed) => ValidationCarries(s, id, price, confirmed);
    case SyncPrice(id, readable) => SyncCarries(s, id, readable);
    case _ =>
  }

  ghost predicate PricesKept(s: System, s': System, i: nat) {
    i < |s.calls| ==> i < |s'.calls| && s'.calls[i].price == s.calls[i].price
  }

  lemma LookedKeepsPrice(s: System, id: nat, readable: bool, ordersReadable: bool, i: nat)
    requires !Learns(s, LookForMatchState(id, readable, ordersReadable), i)
    ensures PricesKept(s, Looked(s, id, readable, ordersReadable), i)
  {
  }

  lemma ValidationKeepsPrice(s: System, id: nat, price: Bps, confirmed: bool, i: nat)
    requires !Learns(s, Validate(id, price, confirmed), i)
    ensures PricesKept(s, ValidationTried(s, id, price, confirmed), i)
  {
  }

  lemma SyncKeepsPrice(s: System, id: nat, readable: bool, i: nat)
    requires !Learns(s, SyncPrice(id, readable), i)
    ensures PricesKept(s, PriceSynced(s, id, readable), i)
  {
  }

  lemma ChecksKeepPrice(s: System, id: nat, readable: bool, i: nat)
    ensures PricesKept(s, BuyerChecked(s, id, readable), i) && PricesKept(s, SellerChecked(s, id, readable), i)
  {
  }

  lemma SettlingKeepsPrice(s: System, id: nat, confirmed: bool, i: nat)
    ensures PricesKept(s, BuyerTried(s, id, confirmed), i) && PricesKept(s, SellerTried(s, id, confirmed), i)
  {
  }

  lemma RowStepsKeepPrice(s: System, id: nat, i: nat)
    ensures PricesKept(s, BuyRowRead(s, id), i) && PricesKept(s, SellRowRead(s, id), i)
    ensures PricesKept(s, BuyRowSaved(s, id), i) && PricesKept(s, SellRowSaved(s, id), i)
  {
  }

  /** No other event changes the price that a call carries. */
  lemma OthersKeepPrice(s: System, e: Event, i: nat)
    requires !Learns(s, e, i)
    ensures PricesKept(s, Step(s, e), i)
  {
    match e
    case LookForMatchState(id, readable, ordersReadable) => LookedKeepsPrice(s, id, readable, ordersReadable, i);
    case Validate(id, price, confirmed) => ValidationKeepsPrice(s, id, price, confirmed, i);
    case SyncPrice(id, readable) => SyncKeepsPrice(s, id, readable, i);
    case CheckBuyer(id, readable) => ChecksKeepPrice(s, id, readable, i);
    case CheckSeller(id, readable) => ChecksKeepPrice(s, id, readable, i);
    case ExecuteBuyer(id, confirmed) => SettlingKeepsPrice(s, id, confirmed, i);
    case ExecuteSeller(id, confirmed) => SettlingKeepsPrice(s, id, confirmed, i);
    case ReadBuyRow(id) => RowStepsKeepPrice(s, id, i);
    case ReadSellRow(id) => RowStepsKeepPrice(s, id, i);
    case SaveBuyRow(id) => RowStepsKeepPrice(s, id, i);
    case SaveSellRow(id) => RowStepsKeepPrice(s, id, i);
    case _ =>
  }

  lemma StepKeepsMatchPrices(s: System, e: Event, p: Pair)
    requires p in s.chain
    ensures p in Step(s, e).chain && Step(s, e).chain[p].price == s.chain[p].price
  {
    StepOnChain(s, e);
    assert p in ChainStep(s, e).chain && ChainStep(s, e).chain[p].price == s.chain[p].price;
  }

  lemma GivingUpKeepsPrice(s: System, e: Event, i: nat)
    requires Learns(s, e, i) && !LearnsAndGoesOn(s, e, i)
    ensures PricesKept(s, Step(s, e), i)
  {
  }

  // ----------------------------------------------------------------------------- every run

  /** Some event of the run was of that kind. */
  predicate Informed(events: seq<Event>, i: nat) {
    events != [] &&
    var n := |events| - 1;
    Informed(events[..n], i) || LearnsAndGoesOn(Run(events[..n]), events[n], i)
  }

  lemma StepKeepsCarrying(s: System, e: Event, i: nat)
    requires Inv(s) && CarriesPrice(s, i)
    ensures CarriesPrice(Step(s, e), i)
  {
    StepKeepsCalls(s, e);
    StepKeepsMatchPrices(s, e, s.calls[i].pair);
    if LearnsAndGoesOn(s, e, i) {
      LearningCarries(s, e, i);
    } else if Learns(s, e, i) {
      GivingUpKeepsPrice(s, e, i);
    } else {
      OthersKeepPrice(s, e, i);
    }
  }

  lemma LearnerHasPair(s: System, e: Event, i: nat)
    requires Inv(s) && LearnsAndGoesOn(s, e, i)
    ensures i < |s.calls| && (e.SyncPrice? ==> s.calls[i].pair in s.chain)
  {
  }

  /** In every run, a call that has gone on after a readable look, a validation or a readable
      final read carries the price of its pair's match state, if that is positive; so it is
      the one it writes its rows with. */
  lemma {:induction false} InformedCallsCarryPrice(events: seq<Event>, i: nat)
    requires Informed(events, i)
    ensures CarriesPrice(Run(events), i)
  {
    var n := |events| - 1;
    var s, e := Run(events[..n]), events[n];
    RunsKeepInv(events[..n]);
    if Informed(events[..n], i) {
      InformedCallsCarryPrice(events[..n], i);
      StepKeepsCarrying(s, e, i);
    } else {
      LearnerHasPair(s, e, i);
      LearningCarries(s, e, i);
    }
  }

  /** And a call that never learned it carries the price it was started with. */
  lemma {:induction false} UninformedCallsKeepPrice(events: seq<Event>, more: seq<Event>, i: nat)
    requires i < |Run(events).calls|
    requires forall k :: 0 <= k < |more| ==> !Learns(Run(events + more[..k]), more[k], i)
    ensures i < |Run(events + more).calls| && Run(events + more).calls[i].price == Run(events).calls[i].price
  {
    if more == [] {
      assert events + more == events;
    } else {
      var n := |more| - 1;
      assert forall k :: 0 <= k < n ==> more[..n][..k] == more[..k];
      UninformedCallsKeepPrice(events, more[..n], i);
      assert !Learns(Run(events + more[..n]), more[n], i);
      OthersKeepPrice(Run(events + more[..n]), more[n], i);
      ConcatInit(events, more);
    }
  }
}
