/** Any number of keeper processes racing through executeMatch
    (backend/src/services/orderKeeperService.ts:312-1744). The chain holds the orders and one
    match state per order pair with two monotone flags; each instruction is an atomic
    test-and-set (programs/space-core/src/instructions/matching.rs:181-280, 430-457, 892-899
    and 1480-1738). The database is reduced to the `filled` column of the order rows, read
    and saved in separate steps. Calls may be abandoned, processes may crash, reads may fail
    and transactions may land without their confirmation being seen. */
module KeeperProtocol {
  import opened Orders

  datatype Pair = Pair(buy: nat, sell: nat)

  /** An order row, addressed by side and id. */
  datatype Leg = Leg(side: Side, id: nat)

  function LegOf(p: Pair, side: Side): Leg {
    if side.Buy? then Leg(Buy, p.buy) else Leg(Sell, p.sell)
  }

  /** An order on chain. The escrow of a sell order holds the shares that have not been
      handed to a buyer; that of a buy order is not used here. */
  datatype ChainOrder = ChainOrder(price: Bps, quantity: nat, filled: nat, escrow: nat)

  /** `size` is the quantity that the program fixed on validation. */
  datatype MatchState = MatchState(price: Bps, size: nat, buyExecuted: bool, sellExecuted: bool)

  datatype Stage = Syncing | ReadingBuy | ReadingSell | SavingBuy | SavingSell

  datatype Pc =
    | Entered
    | Validating
    | CheckingBuyer
    | ExecutingBuyer
    | CheckingSeller(checks: nat)
    | ExecutingSeller
    | Recording(slot: nat, stage: Stage, buySeen: nat, sellSeen: nat)
    | Finished

  /** One invocation of executeMatch. */
  datatype Call = Call(process: nat, pair: Pair, price: Bps, size: nat, pc: Pc)

  /** One seller settlement on chain: the match state's size, the call that saw its own
      transaction land, and what that call has saved to each of the two order rows. */
  datatype Settlement = Settlement(pair: Pair, size: nat, recorder: Option<nat>, savedBuy: Option<nat>,
                                   savedSell: Option<nat>)

  datatype System = System(
    orders: map<Leg, ChainOrder>,
    chain: map<Pair, MatchState>,
    calls: seq<Call>,
    executing: set<(nat, Pair)>,
    filled: map<Leg, nat>,
    buyersSettled: seq<Pair>,
    settlements: seq<Settlement>
  )

  const INITIAL := System(map[], map[], [], {}, map[], [], [])

  const MAX_CHECK_ATTEMPTS := 5

  function FilledOf(s: System, leg: Leg): nat {
    if leg in s.filled then s.filled[leg] else 0
  }

  // ------------------------------------------------------------------------- the program

  /** The program marks an order filled as soon as nothing of it remains. */
  predicate OrderFilled(s: System, leg: Leg) {
    leg in s.orders && s.orders[leg].filled >= s.orders[leg].quantity
  }

  function RemainingOnChain(s: System, leg: Leg): nat {
    if leg in s.orders && !OrderFilled(s, leg) then s.orders[leg].quantity - s.orders[leg].filled else 0
  }

  /** What a match of `size` is cut down to on validation. */
  function FillQuantity(s: System, p: Pair, size: nat): nat {
    Min(size, Min(RemainingOnChain(s, LegOf(p, Buy)), RemainingOnChain(s, LegOf(p, Sell))))
  }

  /** validate_match accepts a positive quantity at a price between the two orders'. */
  predicate Validates(s: System, p: Pair, price: Bps, size: nat) {
    && LegOf(p, Buy) in s.orders && LegOf(p, Sell) in s.orders
    && s.orders[LegOf(p, Sell)].price <= price <= s.orders[LegOf(p, Buy)].price
    && FillQuantity(s, p, size) > 0
  }

  function Validated(s: System, p: Pair, price: Bps, size: nat): System {
    s.(chain := s.chain[p := MatchState(price, FillQuantity(s, p, size), false, false)])
  }

  function WithFilled(orders: map<Leg, ChainOrder>, leg: Leg, size: nat): map<Leg, ChainOrder> {
    if leg in orders then orders[leg := orders[leg].(filled := orders[leg].filled + size)] else orders
  }

  function EscrowOf(orders: map<Leg, ChainOrder>, leg: Leg): nat {
    if leg in orders then orders[leg].escrow else 0
  }

  function WithoutEscrow(orders: map<Leg, ChainOrder>, leg: Leg, size: nat): map<Leg, ChainOrder> {
    if leg in orders && size <= orders[leg].escrow then orders[leg := orders[leg].(escrow := orders[leg].escrow - size)]
    else orders
  }

  /** The buyer instruction hands over the shares that the sell order holds in escrow. */
  predicate BuyerSettles(s: System, p: Pair) {
    p in s.chain && !s.chain[p].buyExecuted && s.chain[p].size <= EscrowOf(s.orders, LegOf(p, Sell))
  }

  function BuyerSettled(s: System, p: Pair): System
    requires p in s.chain
  {
    var m := s.chain[p];
    s.(orders := WithFilled(WithoutEscrow(s.orders, LegOf(p, Sell), m.size), LegOf(p, Buy), m.size),
       chain := s.chain[p := m.(buyExecuted := true)],
       buyersSettled := s.buyersSettled + [p])
  }

  predicate SellerSettles(s: System, p: Pair) {
    p in s.chain && s.chain[p].buyExecuted && !s.chain[p].sellExecuted
  }

  function SellerSettled(s: System, p: Pair, recorder: Option<nat>): System
    requires p in s.chain
  {
    var m := s.chain[p];
    s.(orders := WithFilled(s.orders, LegOf(p, Sell), m.size),
       chain := s.chain[p := m.(sellExecuted := true)],
       settlements := s.settlements + [Settlement(p, m.size, recorder, None, None)])
  }

  // ------------------------------------------------------------------------ the keepers

  datatype Event =
    | CreateOrder(leg: Leg, price: Bps, quantity: nat)
    | Start(process: nat, pair: Pair, price: Bps, size: nat)
    | LookForMatchState(id: nat, readable: bool, ordersReadable: bool)
    | Validate(id: nat, price: Bps, confirmed: bool)
    | CheckBuyer(id: nat, readable: bool)
    | ExecuteBuyer(id: nat, confirmed: bool)
    | CheckSeller(id: nat, readable: bool)
    | ExecuteSeller(id: nat, confirmed: bool)
    | SyncPrice(id: nat, readable: bool)
    | ReadBuyRow(id: nat)
    | ReadSellRow(id: nat)
    | SaveBuyRow(id: nat)
    | SaveSellRow(id: nat)
    | Abandon(id: nat)
    | Crash(process: nat)

  function Goto(s: System, id: nat, pc: Pc): System
    requires id < |s.calls|
  {
    s.(calls := s.calls[id := s.calls[id].(pc := pc)])
  }

  /** The `finally` block: the pair leaves the process's set of executing matches. */
  function Finish(s: System, id: nat): System
    requires id < |s.calls|
  {
    Goto(s, id, Finished).(executing := s.executing - {(s.calls[id].process, s.calls[id].pair)})
  }

  function WithPrice(s: System, id: nat, price: Bps): System
    requires id < |s.calls|
  {
    if price > 0 then s.(calls := s.calls[id := s.calls[id].(price := price)]) else s
  }

  // ------------------------------------------- one event; nothing changes if not enabled

  function OrderCreated(s: System, leg: Leg, price: Bps, quantity: nat): System {
    if leg in s.orders || quantity == 0 then s
    else s.(orders := s.orders[leg := ChainOrder(price, quantity, 0, quantity)])
  }

  function Started(s: System, process: nat, pair: Pair, price: Bps, size: nat): System {
    if (process, pair) in s.executing || size == 0 then s
    else s.(calls := s.calls + [Call(process, pair, price, size, Entered)],
            executing := s.executing + {(process, pair)})
  }

  function Crashed(s: System, process: nat): System {
    s.(calls := seq(|s.calls|, i requires 0 <= i < |s.calls| =>
                      if s.calls[i].process == process then s.calls[i].(pc := Finished) else s.calls[i]),
       executing := set x | x in s.executing && x.0 != process)
  }

  predicate Stands(s: System, id: nat, pc: Pc) {
    id < |s.calls| && s.calls[id].pc == pc
  }

  function Looked(s: System, id: nat, readable: bool, ordersReadable: bool): System {
    if !Stands(s, id, Entered) then s
    else
      var p := s.calls[id].pair;
      if p !in s.chain then Goto(s, id, Validating)
      else if !readable then Goto(s, id, CheckingBuyer)
      else if s.chain[p].sellExecuted then Finish(s, id)
      else if ordersReadable && (OrderFilled(s, LegOf(p, Buy)) || OrderFilled(s, LegOf(p, Sell))) then Finish(s, id)
      else Goto(WithPrice(s, id, s.chain[p].price), id, CheckingBuyer)
  }

  /** `price` is the one sent along, which the keeper may have taken from the orders. */
  function ValidationTried(s: System, id: nat, price: Bps, confirmed: bool): System {
    if !Stands(s, id, Validating) then s
    else
      var c := s.calls[id];
      if c.pair in s.chain then Goto(WithPrice(s, id, s.chain[c.pair].price), id, CheckingBuyer)
      else if !Validates(s, c.pair, price, c.size) then Finish(s, id)
      else if confirmed then Goto(WithPrice(Validated(s, c.pair, price, c.size), id, price), id, CheckingBuyer)
      else Finish(Validated(s, c.pair, price, c.size), id)
  }

  function BuyerChecked(s: System, id: nat, readable: bool): System {
    if !Stands(s, id, CheckingBuyer) || s.calls[id].pair !in s.chain then s
    else if readable && s.chain[s.calls[id].pair].buyExecuted then Goto(s, id, CheckingSeller(0))
    else Goto(s, id, ExecutingBuyer)
  }

  function BuyerTried(s: System, id: nat, confirmed: bool): System {
    if !Stands(s, id, ExecutingBuyer) || s.calls[id].pair !in s.chain then s
    else
      var p := s.calls[id].pair;
      if s.chain[p].buyExecuted then Goto(s, id, CheckingSeller(0))
      else if !BuyerSettles(s, p) then Finish(s, id)
      else if confirmed then Goto(BuyerSettled(s, p), id, CheckingSeller(0))
      else Finish(BuyerSettled(s, p), id)
  }

  function SellerChecked(s: System, id: nat, readable: bool): System {
    if id >= |s.calls| || !s.calls[id].pc.CheckingSeller? || s.calls[id].pair !in s.chain then s
    else
      var m, k := s.chain[s.calls[id].pair], s.calls[id].pc.checks;
      if readable && (m.sellExecuted || !m.buyExecuted) then Finish(s, id)
      else if k + 1 < MAX_CHECK_ATTEMPTS then Goto(s, id, CheckingSeller(k + 1))
      else if readable then Goto(s, id, ExecutingSeller)
      else Finish(s, id)
  }

  function SellerTried(s: System, id: nat, confirmed: bool): System {
    if !Stands(s, id, ExecutingSeller) || s.calls[id].pair !in s.chain then s
    else
      var p := s.calls[id].pair;
      if !SellerSettles(s, p) then Finish(s, id)
      else if confirmed then
        Goto(SellerSettled(s, p, Some(id)), id, Recording(|s.settlements|, Syncing, 0, 0))
      else Finish(SellerSettled(s, p, None), id)
  }

  function PriceSynced(s: System, id: nat, readable: bool): System {
    if id >= |s.calls| || !InStage(s.calls[id], Syncing) || s.calls[id].pair !in s.chain then s
    else
      var s' := if readable then WithPrice(s, id, s.chain[s.calls[id].pair].price) else s;
      Goto(s', id, s.calls[id].pc.(stage := ReadingBuy))
  }

  function BuyRowRead(s: System, id: nat): System {
    if id >= |s.calls| || !InStage(s.calls[id], ReadingBuy) then s
    else
      var c := s.calls[id];
      Goto(s, id, c.pc.(stage := ReadingSell, buySeen := FilledOf(s, LegOf(c.pair, Buy))))
  }

  function SellRowRead(s: System, id: nat): System {
    if id >= |s.calls| || !InStage(s.calls[id], ReadingSell) then s
    else
      var c := s.calls[id];
      Goto(s, id, c.pc.(stage := SavingBuy, sellSeen := FilledOf(s, LegOf(c.pair, Sell))))
  }

  /** The call stands at its save to this side's row. */
  predicate AtSave(s: System, id: nat, side: Side) {
    && id < |s.calls| && InStage(s.calls[id], if side.Buy? then SavingBuy else SavingSell)
    && s.calls[id].pc.slot < |s.settlements|
  }

  function BuyRowSaved(s: System, id: nat): System {
    if !AtSave(s, id, Buy) then s
    else
      var c := s.calls[id];
      var k := c.pc.slot;
      Goto(s, id, c.pc.(stage := SavingSell))
        .(filled := s.filled[LegOf(c.pair, Buy) := c.pc.buySeen + c.size],
          settlements := s.settlements[k := s.settlements[k].(savedBuy := Some(c.size))])
  }

  function SellRowSaved(s: System, id: nat): System {
    if !AtSave(s, id, Sell) then s
    else
      var c := s.calls[id];
      var k := c.pc.slot;
      Finish(s, id)
        .(filled := s.filled[LegOf(c.pair, Sell) := c.pc.sellSeen + c.size],
          settlements := s.settlements[k := s.settlements[k].(savedSell := Some(c.size))])
  }

  function Step(s: System, e: Event): System {
    match e
    case CreateOrder(leg, price, quantity) => OrderCreated(s, leg, price, quantity)
    case Start(process, pair, price, size) => Started(s, process, pair, price, size)
    case LookForMatchState(id, readable, ordersReadable) => Looked(s, id, readable, ordersReadable)
    case Validate(id, price, confirmed) => ValidationTried(s, id, price, confirmed)
    case CheckBuyer(id, readable) => BuyerChecked(s, id, readable)
    case ExecuteBuyer(id, confirmed) => BuyerTried(s, id, confirmed)
    case CheckSeller(id, readable) => SellerChecked(s, id, readable)
    case ExecuteSeller(id, confirmed) => SellerTried(s, id, confirmed)
    case SyncPrice(id, readable) => PriceSynced(s, id, readable)
    case ReadBuyRow(id) => BuyRowRead(s, id)
    case ReadSellRow(id) => SellRowRead(s, id)
    case SaveBuyRow(id) => BuyRowSaved(s, id)
    case SaveSellRow(id) => SellRowSaved(s, id)
    case Abandon(id) => if id < |s.calls| && !s.calls[id].pc.Finished? then Finish(s, id) else s
    case Crash(process) => Crashed(s, process)
  }

  predicate InStage(c: Call, stage: Stage) {
    c.pc.Recording? && c.pc.stage == stage
  }

  function Run(events: seq<Event>): System {
    if events == [] then INITIAL else Step(Run(events[..|events| - 1]), events[|events| - 1])
  }

  // ------------------------------------------------------------------ sums over settlements

  function SavedAt(x: Settlement, side: Side): Option<nat> {
    if side.Buy? then x.savedBuy else x.savedSell
  }

  function SavedPart(x: Settlement, leg: Leg): nat {
    if LegOf(x.pair, leg.side) == leg && SavedAt(x, leg.side).Some? then SavedAt(x, leg.side).value else 0
  }

  /** What has been saved to a row, were no update ever lost. */
  function SavedSum(xs: seq<Settlement>, leg: Leg): nat {
    if xs == [] then 0 else SavedSum(xs[..|xs| - 1], leg) + SavedPart(xs[|xs| - 1], leg)
  }

  /** What the chain has settled for an order. */
  function SettledSum(xs: seq<Settlement>, leg: Leg): nat {
    if xs == [] then 0
    else
      var x := xs[|xs| - 1];
      SettledSum(xs[..|xs| - 1], leg) + if LegOf(x.pair, leg.side) == leg then x.size else 0
  }

  lemma {:induction false} SavedSumUpdate(xs: seq<Settlement>, k: nat, x: Settlement, leg: Leg)
    requires k < |xs|
    ensures SavedSum(xs[k := x], leg) == SavedSum(xs, leg) - SavedPart(xs[k], leg) + SavedPart(x, leg)
  {
    var n := |xs| - 1;
    if k == n {
      assert xs[k := x][..n] == xs[..n];
    } else {
      assert xs[k := x][..n] == xs[..n][k := x];
      SavedSumUpdate(xs[..n], k, x, leg);
    }
  }

  lemma SavedSumAppend(xs: seq<Settlement>, x: Settlement, leg: Leg)
    ensures SavedSum(xs + [x], leg) == SavedSum(xs, leg) + SavedPart(x, leg)
  {
    assert (xs + [x])[..|xs|] == xs;
  }

  // ------------------------------------------------------------------------- the invariant

  predicate Active(c: Call) {
    !c.pc.Finished?
  }

  predicate PastValidation(c: Call) {
    c.pc.CheckingBuyer? || c.pc.ExecutingBuyer? || c.pc.CheckingSeller? || c.pc.ExecutingSeller? || c.pc.Recording?
  }

  /** A recording call owns the settlement of its slot, has saved to it exactly what its
      stage says, and has read rows that lag behind what had been saved by then. */
  ghost predicate SlotOk(s: System, id: nat)
    requires id < |s.calls| && s.calls[id].pc.Recording?
  {
    var c := s.calls[id];
    var pc := c.pc;
    && pc.slot < |s.settlements|
    && s.settlements[pc.slot].pair == c.pair
    && s.settlements[pc.slot].recorder == Some(id)
    && s.settlements[pc.slot].savedBuy == (if pc.stage.SavingSell? then Some(c.size) else None)
    && s.settlements[pc.slot].savedSell == None
    && (pc.stage.ReadingSell? || pc.stage.SavingBuy? ==> pc.buySeen <= SavedSum(s.settlements, LegOf(c.pair, Buy)))
    && (pc.stage.SavingBuy? || pc.stage.SavingSell? ==> pc.sellSeen <= SavedSum(s.settlements, LegOf(c.pair, Sell)))
  }

  ghost predicate CallsOk(s: System) {
    forall i :: 0 <= i < |s.calls| ==>
      && (PastValidation(s.calls[i]) ==> s.calls[i].pair in s.chain)
      && (s.calls[i].pc.Recording? ==> SlotOk(s, i))
  }

  /** Inside one process a pair is executed by at most one call at a time. */
  ghost predicate ExecutingOk(s: System) {
    && (forall i :: 0 <= i < |s.calls| && Active(s.calls[i]) ==> (s.calls[i].process, s.calls[i].pair) in s.executing)
    && (forall i, j :: 0 <= i < j < |s.calls| && Active(s.calls[i]) && Active(s.calls[j]) ==>
          s.calls[i].process != s.calls[j].process || s.calls[i].pair != s.calls[j].pair)
  }

  /** The flags tell what has been settled, and the seller follows the buyer. */
  ghost predicate ChainOk(s: System) {
    && (forall p :: p in s.chain ==> (s.chain[p].buyExecuted <==> p in s.buyersSettled))
    && (forall p :: p in s.chain && s.chain[p].sellExecuted ==> s.chain[p].buyExecuted)
    && (forall p :: p in s.buyersSettled ==> p in s.chain)
    && (forall k :: 0 <= k < |s.settlements| ==>
          var x := s.settlements[k];
          x.pair in s.chain && s.chain[x.pair].sellExecuted && x.size == s.chain[x.pair].size)
  }

  ghost predicate OnceOk(s: System) {
    && (forall i, j :: 0 <= i < j < |s.buyersSettled| ==> s.buyersSettled[i] != s.buyersSettled[j])
    && (forall i, j :: 0 <= i < j < |s.settlements| ==> s.settlements[i].pair != s.settlements[j].pair)
  }

  /** Only the call that saw its own seller transaction land saves, and saves its size. */
  ghost predicate RecordersOk(s: System) {
    forall k :: 0 <= k < |s.settlements| ==>
      var x := s.settlements[k];
      && (x.recorder.Some? ==> x.recorder.value < |s.calls| && s.calls[x.recorder.value].pair == x.pair)
      && (x.savedBuy.Some? ==> x.recorder.Some? && x.savedBuy.value == s.calls[x.recorder.value].size)
      && (x.savedSell.Some? ==> x.savedBuy.Some? && x.savedSell.value == s.calls[x.recorder.value].size)
  }

  predicate CoversRow(x: Settlement, leg: Leg, filled: nat) {
    LegOf(x.pair, leg.side) == leg && SavedAt(x, leg.side).Some? && SavedAt(x, leg.side).value <= filled
  }

  /** The stored value still covers at least one of the saves to that row. */
  ghost predicate Covered(xs: seq<Settlement>, leg: Leg, filled: nat) {
    exists j :: 0 <= j < |xs| && CoversRow(xs[j], leg, filled)
  }

  /** A row holds at most what was saved to it, and no less than some one save. */
  ghost predicate FilledOk(s: System) {
    && (forall leg :: FilledOf(s, leg) <= SavedSum(s.settlements, leg))
    && (forall leg :: leg in s.filled ==> Covered(s.settlements, leg, s.filled[leg]))
    && (forall k, side :: 0 <= k < |s.settlements| && SavedAt(s.settlements[k], side).Some? ==>
          LegOf(s.settlements[k].pair, side) in s.filled)
  }

  ghost predicate Inv(s: System) {
    CallsOk(s) && ExecutingOk(s) && ChainOk(s) && OnceOk(s) && RecordersOk(s) && FilledOk(s)
  }

  // ------------------------------------------------------------------------ events keep it

  lemma StartedKeepsInv(s: System, process: nat, pair: Pair, price: Bps, size: nat)
    requires Inv(s)
    ensures Inv(Started(s, process, pair, price, size))
  {
    if (process, pair) !in s.executing && size > 0 {
      CallAddedKeepsInv(s, Call(process, pair, price, size, Entered));
    }
  }

  lemma CallAddedKeepsInv(s: System, c: Call)
    requires Inv(s) && c.pc.Entered? && (c.process, c.pair) !in s.executing
    ensures Inv(s.(calls := s.calls + [c], executing := s.executing + {(c.process, c.pair)}))
  {
    var s' := s.(calls := s.calls + [c], executing := s.executing + {(c.process, c.pair)});
    assert CallsOk(s') by {
      forall i | 0 <= i < |s'.calls| && s'.calls[i].pc.Recording?
        ensures SlotOk(s', i)
      {
        assert SlotOk(s, i);
      }
    }
    assert RecordersOk(s') by {
      assert forall i :: 0 <= i < |s.calls| ==> s'.calls[i] == s.calls[i];
    }
    SameDatabase(s, s');
  }

  /** Events that touch neither settlements nor rows leave the row bounds alone. */
  lemma SameDatabase(s: System, s': System)
    requires FilledOk(s) && s'.filled == s.filled && s'.settlements == s.settlements
    ensures FilledOk(s')
  {
    assert forall leg :: FilledOf(s', leg) == FilledOf(s, leg);
  }

  lemma CrashedKeepsInv(s: System, process: nat)
    requires Inv(s)
    ensures Inv(Crashed(s, process))
  {
    var s' := Crashed(s, process);
    assert forall i :: 0 <= i < |s'.calls| && s'.calls[i].pc.Recording? ==> SlotOk(s, i);
    SameDatabase(s, s');
  }

  lemma FinishKeepsInv(s: System, id: nat)
    requires Inv(s) && id < |s.calls| && Active(s.calls[id])
    ensures Inv(Finish(s, id))
  {
    var s' := Finish(s, id);
    assert forall i :: 0 <= i < |s'.calls| && s'.calls[i].pc.Recording? ==> SlotOk(s, i);
    SameDatabase(s, s');
  }

  /** Moving a call that has not reached the seller yet. */
  lemma MoveKeepsInv(s: System, id: nat, pc: Pc)
    requires Inv(s) && id < |s.calls| && Active(s.calls[id]) && !s.calls[id].pc.Recording?
    requires !pc.Recording? && !pc.Finished?
    requires PastValidation(s.calls[id].(pc := pc)) ==> s.calls[id].pair in s.chain
    ensures Inv(Goto(s, id, pc))
  {
    var s' := Goto(s, id, pc);
    assert forall i :: 0 <= i < |s'.calls| && s'.calls[i].pc.Recording? ==> SlotOk(s, i);
    SameDatabase(s, s');
  }

  lemma PriceKeepsInv(s: System, id: nat, price: Bps)
    requires Inv(s) && id < |s.calls| && !s.calls[id].pc.Recording?
    ensures Inv(WithPrice(s, id, price))
  {
    var s' := WithPrice(s, id, price);
    assert forall i :: 0 <= i < |s.calls| ==> s'.calls[i] == s.calls[i].(price := s'.calls[i].price);
    assert forall i :: 0 <= i < |s'.calls| && s'.calls[i].pc.Recording? ==> SlotOk(s, i);
    SameDatabase(s, s');
  }

  lemma OrdersKeepInv(s: System, orders: map<Leg, ChainOrder>)
    requires Inv(s)
    ensures Inv(s.(orders := orders))
  {
    var s' := s.(orders := orders);
    assert forall i :: 0 <= i < |s'.calls| && s'.calls[i].pc.Recording? ==> SlotOk(s, i);
    SameDatabase(s, s');
  }

  lemma CreateMatchKeepsInv(s: System, p: Pair, m: MatchState)
    requires Inv(s) && p !in s.chain && !m.buyExecuted && !m.sellExecuted
    ensures Inv(s.(chain := s.chain[p := m]))
  {
    var s' := s.(chain := s.chain[p := m]);
    assert forall i :: 0 <= i < |s'.calls| && s'.calls[i].pc.Recording? ==> SlotOk(s, i);
    SameDatabase(s, s');
  }

  lemma SettleBuyerKeepsInv(s: System, p: Pair)
    requires Inv(s) && p in s.chain && !s.chain[p].buyExecuted
    ensures Inv(BuyerSettled(s, p))
  {
    var s' := BuyerSettled(s, p);
    assert forall i :: 0 <= i < |s'.calls| && s'.calls[i].pc.Recording? ==> SlotOk(s, i);
    assert forall q :: q in s'.buyersSettled <==> q in s.buyersSettled || q == p;
    SameDatabase(s, s');
  }

  /** A new settlement with nothing saved to it disturbs no row. */
  lemma AppendKeepsFilled(s: System, s': System, x: Settlement)
    requires FilledOk(s) && s'.filled == s.filled && s'.settlements == s.settlements + [x]
    requires x.savedBuy == None && x.savedSell == None
    ensures FilledOk(s')
    ensures forall leg :: SavedSum(s'.settlements, leg) == SavedSum(s.settlements, leg)
  {
    forall leg
      ensures SavedSum(s'.settlements, leg) == SavedSum(s.settlements, leg)
    {
      SavedSumAppend(s.settlements, x, leg);
    }
    forall leg | leg in s'.filled
      ensures Covered(s'.settlements, leg, s'.filled[leg])
    {
      var j :| 0 <= j < |s.settlements| && CoversRow(s.settlements[j], leg, s.filled[leg]);
      assert CoversRow(s'.settlements[j], leg, s'.filled[leg]);
    }
    forall leg
      ensures FilledOf(s', leg) <= SavedSum(s'.settlements, leg)
    {
      assert FilledOf(s', leg) == FilledOf(s, leg);
    }
  }

  /** The seller transaction lands; the call, if it saw that, takes the new slot. */
  lemma SettleSellerKeepsInv(s: System, id: nat, recorder: Option<nat>, pc: Pc)
    requires Inv(s) && id < |s.calls| && s.calls[id].pc.ExecutingSeller?
    requires s.calls[id].pair in s.chain && s.chain[s.calls[id].pair].buyExecuted
             && !s.chain[s.calls[id].pair].sellExecuted
    requires if recorder.Some? then recorder.value == id && pc == Recording(|s.settlements|, Syncing, 0, 0)
             else pc == s.calls[id].pc
    ensures Inv(Goto(SellerSettled(s, s.calls[id].pair, recorder), id, pc))
  {
    var p := s.calls[id].pair;
    var m := s.chain[p];
    var x := Settlement(p, m.size, recorder, None, None);
    var s' := Goto(SellerSettled(s, p, recorder), id, pc);
    AppendKeepsFilled(s, s', x);
    SettleSellerKeepsHistory(s, s', x);
    assert CallsOk(s') by {
      forall i | 0 <= i < |s'.calls| && s'.calls[i].pc.Recording?
        ensures SlotOk(s', i)
      {
        if i != id {
          assert SlotOk(s, i);
        }
      }
    }
  }

  lemma SettleSellerKeepsHistory(s: System, s': System, x: Settlement)
    requires ChainOk(s) && OnceOk(s) && RecordersOk(s) && x.pair in s.chain
    requires var m := s.chain[x.pair];
             && m.buyExecuted && !m.sellExecuted && x.size == m.size
             && s'.chain == s.chain[x.pair := m.(sellExecuted := true)]
    requires s'.settlements == s.settlements + [x] && s'.buyersSettled == s.buyersSettled
    requires |s'.calls| == |s.calls|
    requires forall i :: 0 <= i < |s.calls| ==>
             s'.calls[i].pair == s.calls[i].pair && s'.calls[i].size == s.calls[i].size
    requires x.savedBuy == None && x.savedSell == None
    requires x.recorder.Some? ==> x.recorder.value < |s.calls| && s.calls[x.recorder.value].pair == x.pair
    ensures ChainOk(s') && OnceOk(s') && RecordersOk(s')
  {
    assert forall k :: 0 <= k < |s.settlements| ==>
      s.settlements[k].pair != x.pair && s'.settlements[k] == s.settlements[k];
  }

  /** The price sync and the two reads: the call moves inside its own slot. */
  lemma ReadKeepsInv(s: System, s': System, id: nat, stage: Stage)
    requires Inv(s) && id < |s.calls| && s.calls[id].pc.Recording? && !s.calls[id].pc.stage.SavingSell?
             && !stage.SavingSell?
    requires |s'.calls| == |s.calls| && s' == s.(calls := s'.calls)
    requires forall i :: 0 <= i < |s.calls| && i != id ==> s'.calls[i] == s.calls[i]
    requires var c, c' := s.calls[id], s'.calls[id];
             && c' == c.(price := c'.price, pc := c'.pc)
             && c'.pc.Recording? && c'.pc.slot == c.pc.slot && c'.pc.stage == stage
             && (stage.ReadingSell? || stage.SavingBuy? ==>
                c'.pc.buySeen <= SavedSum(s.settlements, LegOf(c.pair, Buy)))
             && (stage.SavingBuy? ==> c'.pc.sellSeen <= SavedSum(s.settlements, LegOf(c.pair, Sell)))
    ensures Inv(s')
  {
    SameDatabase(s, s');
    assert SlotOk(s, id);
    assert CallsOk(s') by {
      forall i | 0 <= i < |s'.calls| && s'.calls[i].pc.Recording?
        ensures SlotOk(s', i)
      {
        if i != id {
          assert SlotOk(s, i);
        }
      }
    }
  }

  lemma PriceSyncedKeepsInv(s: System, id: nat, readable: bool)
    requires Inv(s)
    ensures Inv(PriceSynced(s, id, readable))
  {
    if PriceSynced(s, id, readable) != s {
      assert SlotOk(s, id);
      ReadKeepsInv(s, PriceSynced(s, id, readable), id, ReadingBuy);
    }
  }

  lemma BuyRowReadKeepsInv(s: System, id: nat)
    requires Inv(s)
    ensures Inv(BuyRowRead(s, id))
  {
    if BuyRowRead(s, id) != s {
      assert SlotOk(s, id);
      ReadKeepsInv(s, BuyRowRead(s, id), id, ReadingSell);
    }
  }

  lemma SellRowReadKeepsInv(s: System, id: nat)
    requires Inv(s)
    ensures Inv(SellRowRead(s, id))
  {
    if SellRowRead(s, id) != s {
      assert SlotOk(s, id);
      ReadKeepsInv(s, SellRowRead(s, id), id, SavingBuy);
    }
  }

  /** The slot's settlement after the call has saved its size to one of the rows. */
  function Saved(x: Settlement, side: Side, size: nat): Settlement {
    if side.Buy? then x.(savedBuy := Some(size)) else x.(savedSell := Some(size))
  }

  /** Saving one row: the slot's part goes from nothing to the saved size, so even a stale
      read plus that size stays within what has been saved. */
  lemma SaveKeepsBound(s: System, s': System, k: nat, side: Side, seen: nat, size: nat)
    requires FilledOk(s) && k < |s.settlements| && SavedAt(s.settlements[k], side) == None
    requires seen <= SavedSum(s.settlements, LegOf(s.settlements[k].pair, side))
    requires s'.filled == s.filled[LegOf(s.settlements[k].pair, side) := seen + size]
    requires s'.settlements == s.settlements[k := Saved(s.settlements[k], side, size)]
    ensures forall leg :: FilledOf(s', leg) <= SavedSum(s'.settlements, leg)
    ensures forall leg :: SavedSum(s'.settlements, leg) >= SavedSum(s.settlements, leg)
  {
    var leg0 := LegOf(s.settlements[k].pair, side);
    forall leg
      ensures SavedSum(s'.settlements, leg) == SavedSum(s.settlements, leg) + if leg == leg0 then size else 0
    {
      SavedSumUpdate(s.settlements, k, s'.settlements[k], leg);
    }
  }

  lemma SaveKeepsCover(s: System, s': System, k: nat, side: Side, seen: nat, size: nat)
    requires FilledOk(s) && k < |s.settlements| && SavedAt(s.settlements[k], side) == None
    requires s'.filled == s.filled[LegOf(s.settlements[k].pair, side) := seen + size]
    requires s'.settlements == s.settlements[k := Saved(s.settlements[k], side, size)]
    ensures forall leg :: leg in s'.filled ==> Covered(s'.settlements, leg, s'.filled[leg])
  {
    forall leg | leg in s'.filled
      ensures Covered(s'.settlements, leg, s'.filled[leg])
    {
      if leg == LegOf(s.settlements[k].pair, side) {
        assert CoversRow(s'.settlements[k], leg, s'.filled[leg]);
      } else {
        var j :| 0 <= j < |s.settlements| && CoversRow(s.settlements[j], leg, s.filled[leg]);
        assert CoversRow(s'.settlements[j], leg, s'.filled[leg]);
      }
    }
  }

  lemma SaveKeepsFilled(s: System, s': System, id: nat, side: Side)
    requires FilledOk(s) && SavesRow(s, s', id, side)
    ensures FilledOk(s')
    ensures forall leg :: SavedSum(s'.settlements, leg) >= SavedSum(s.settlements, leg)
  {
    var c := s.calls[id];
    var k, seen := c.pc.slot, if side.Buy? then c.pc.buySeen else c.pc.sellSeen;
    SaveKeepsBound(s, s', k, side, seen, c.size);
    SaveKeepsCover(s, s', k, side, seen, c.size);
    SaveKeepsNamed(s, s', k, side, c.size);
  }

  lemma SaveKeepsNamed(s: System, s': System, k: nat, side: Side, size: nat)
    requires FilledOk(s) && k < |s.settlements|
    requires s.filled.Keys + {LegOf(s.settlements[k].pair, side)} <= s'.filled.Keys
    requires s'.settlements == s.settlements[k := Saved(s.settlements[k], side, size)]
    ensures forall l, d :: 0 <= l < |s'.settlements| && SavedAt(s'.settlements[l], d).Some? ==>
              LegOf(s'.settlements[l].pair, d) in s'.filled
  {
    forall l, d | 0 <= l < |s'.settlements| && SavedAt(s'.settlements[l], d).Some?
      ensures LegOf(s'.settlements[l].pair, d) in s'.filled
    {
      if !(l == k && d == side) {
        assert SavedAt(s.settlements[l], d).Some?;
        assert LegOf(s.settlements[l].pair, d) in s.filled.Keys;
      } else {
        assert LegOf(s.settlements[k].pair, side) in s'.filled.Keys;
      }
    }
  }

  ghost predicate SavesRow(s: System, s': System, id: nat, side: Side) {
    && id < |s.calls| && s.calls[id].pc.Recording? && SlotOk(s, id)
    && s.calls[id].pc.stage == (if side.Buy? then SavingBuy else SavingSell)
    && var c := s.calls[id];
       && s'.filled == s.filled[LegOf(c.pair, side) := (if side.Buy? then c.pc.buySeen else c.pc.sellSeen) + c.size]
       && s'.settlements == s.settlements[c.pc.slot := Saved(s.settlements[c.pc.slot], side, c.size)]
       && s'.calls == s.calls[id := c.(pc := if side.Buy? then c.pc.(stage := SavingSell) else Finished)]
       && s'.orders == s.orders && s'.chain == s.chain && s'.buyersSettled == s.buyersSettled
       && s'.executing == if side.Buy? then s.executing else s.executing - {(c.process, c.pair)}
  }

  lemma SaveKeepsCalls(s: System, s': System, id: nat, side: Side)
    requires Inv(s) && SavesRow(s, s', id, side)
    requires forall leg :: SavedSum(s'.settlements, leg) >= SavedSum(s.settlements, leg)
    ensures CallsOk(s')
  {
    forall i | 0 <= i < |s'.calls| && s'.calls[i].pc.Recording?
      ensures SlotOk(s', i)
    {
      assert SlotOk(s, i);
    }
  }

  lemma SaveKeepsHistory(s: System, s': System, id: nat, side: Side)
    requires Inv(s) && SavesRow(s, s', id, side)
    ensures ChainOk(s') && OnceOk(s') && RecordersOk(s')
  {
    var k, c := s.calls[id].pc.slot, s.calls[id];
    assert s'.settlements[k] == Saved(s.settlements[k], side, c.size);
    assert s.settlements[k].recorder == Some(id);
    assert forall i :: 0 <= i < |s.calls| ==>
      s'.calls[i].pair == s.calls[i].pair && s'.calls[i].size == s.calls[i].size;
  }

  lemma SaveKeepsExecuting(s: System, s': System, id: nat, side: Side)
    requires Inv(s) && SavesRow(s, s', id, side)
    ensures ExecutingOk(s')
  {
    assert forall i :: 0 <= i < |s.calls| ==>
      s'.calls[i].pair == s.calls[i].pair && s'.calls[i].process == s.calls[i].process;
  }

  lemma SaveKeepsInv(s: System, s': System, id: nat, side: Side)
    requires Inv(s) && SavesRow(s, s', id, side)
    ensures Inv(s')
  {
    SaveKeepsFilled(s, s', id, side);
    SaveKeepsCalls(s, s', id, side);
    SaveKeepsHistory(s, s', id, side);
    SaveKeepsExecuting(s, s', id, side);
  }

  lemma BuyRowSavedSaves(s: System, id: nat)
    requires AtSave(s, id, Buy) && SlotOk(s, id)
    ensures SavesRow(s, BuyRowSaved(s, id), id, Buy)
  {
    var c := s.calls[id];
    assert BuyRowSaved(s, id).calls == s.calls[id := c.(pc := c.pc.(stage := SavingSell))];
  }

  lemma SellRowSavedSaves(s: System, id: nat)
    requires AtSave(s, id, Sell) && SlotOk(s, id)
    ensures SavesRow(s, SellRowSaved(s, id), id, Sell)
  {
    assert SellRowSaved(s, id).calls == s.calls[id := s.calls[id].(pc := Finished)];
  }

  lemma BuyRowSavedKeepsInv(s: System, id: nat)
    requires Inv(s)
    ensures Inv(BuyRowSaved(s, id))
  {
    if AtSave(s, id, Buy) {
      assert SlotOk(s, id);
      BuyRowSavedSaves(s, id);
      SaveKeepsInv(s, BuyRowSaved(s, id), id, Buy);
    }
  }

  lemma SellRowSavedKeepsInv(s: System, id: nat)
    requires Inv(s)
    ensures Inv(SellRowSaved(s, id))
  {
    if AtSave(s, id, Sell) {
      assert SlotOk(s, id);
      SellRowSavedSaves(s, id);
      SaveKeepsInv(s, SellRowSaved(s, id), id, Sell);
    }
  }

  lemma LookedKeepsInv(s: System, id: nat, readable: bool, ordersReadable: bool)
    requires Inv(s)
    ensures Inv(Looked(s, id, readable, ordersReadable))
  {
    if Stands(s, id, Entered) {
      var p := s.calls[id].pair;
      FinishKeepsInv(s, id);
      if p in s.chain {
        PriceKeepsInv(s, id, s.chain[p].price);
        MoveKeepsInv(s, id, CheckingBuyer);
        MoveKeepsInv(WithPrice(s, id, s.chain[p].price), id, CheckingBuyer);
      } else {
        MoveKeepsInv(s, id, Validating);
      }
    }
  }

  lemma ValidationTriedKeepsInv(s: System, id: nat, price: Bps, confirmed: bool)
    requires Inv(s)
    ensures Inv(ValidationTried(s, id, price, confirmed))
  {
    if Stands(s, id, Validating) {
      var c := s.calls[id];
      if c.pair in s.chain {
        PriceKeepsInv(s, id, s.chain[c.pair].price);
        MoveKeepsInv(WithPrice(s, id, s.chain[c.pair].price), id, CheckingBuyer);
      } else {
        FinishKeepsInv(s, id);
        if Validates(s, c.pair, price, c.size) {
          var s1 := Validated(s, c.pair, price, c.size);
          CreateMatchKeepsInv(s, c.pair, s1.chain[c.pair]);
          FinishKeepsInv(s1, id);
          PriceKeepsInv(s1, id, price);
          MoveKeepsInv(WithPrice(s1, id, price), id, CheckingBuyer);
        }
      }
    }
  }

  lemma BuyerCheckedKeepsInv(s: System, id: nat, readable: bool)
    requires Inv(s)
    ensures Inv(BuyerChecked(s, id, readable))
  {
    if Stands(s, id, CheckingBuyer) {
      MoveKeepsInv(s, id, CheckingSeller(0));
      MoveKeepsInv(s, id, ExecutingBuyer);
    }
  }

  lemma BuyerTriedKeepsInv(s: System, id: nat, confirmed: bool)
    requires Inv(s)
    ensures Inv(BuyerTried(s, id, confirmed))
  {
    if Stands(s, id, ExecutingBuyer) {
      var p := s.calls[id].pair;
      MoveKeepsInv(s, id, CheckingSeller(0));
      FinishKeepsInv(s, id);
      if !s.chain[p].buyExecuted {
        SettleBuyerKeepsInv(s, p);
        FinishKeepsInv(BuyerSettled(s, p), id);
        MoveKeepsInv(BuyerSettled(s, p), id, CheckingSeller(0));
      }
    }
  }

  lemma SellerCheckedMoves(s: System, id: nat, readable: bool)
    requires id < |s.calls| && s.calls[id].pc.CheckingSeller?
    ensures var s' := SellerChecked(s, id, readable);
            || s' == s || s' == Finish(s, id) || s' == Goto(s, id, ExecutingSeller)
            || s' == Goto(s, id, CheckingSeller(s.calls[id].pc.checks + 1))
  {
  }

  lemma SellerCheckedKeepsInv(s: System, id: nat, readable: bool)
    requires Inv(s)
    ensures Inv(SellerChecked(s, id, readable))
  {
    if id < |s.calls| && s.calls[id].pc.CheckingSeller? {
      SellerCheckedMoves(s, id, readable);
      FinishKeepsInv(s, id);
      MoveKeepsInv(s, id, CheckingSeller(s.calls[id].pc.checks + 1));
      MoveKeepsInv(s, id, ExecutingSeller);
    }
  }

  lemma SellerTriedKeepsInv(s: System, id: nat, confirmed: bool)
    requires Inv(s)
    ensures Inv(SellerTried(s, id, confirmed))
  {
    if Stands(s, id, ExecutingSeller) {
      var c := s.calls[id];
      FinishKeepsInv(s, id);
      if s.chain[c.pair].buyExecuted && !s.chain[c.pair].sellExecuted {
        if confirmed {
          SettleSellerKeepsInv(s, id, Some(id), Recording(|s.settlements|, Syncing, 0, 0));
        } else {
          SettleSellerKeepsInv(s, id, None, c.pc);
          assert Goto(SellerSettled(s, c.pair, None), id, c.pc) == SellerSettled(s, c.pair, None);
          FinishKeepsInv(SellerSettled(s, c.pair, None), id);
        }
      }
    }
  }

  lemma RowStepsKeepInv(s: System, e: Event)
    requires Inv(s) && (e.SyncPrice? || e.ReadBuyRow? || e.ReadSellRow? || e.SaveBuyRow? || e.SaveSellRow?)
    ensures Inv(Step(s, e))
  {
    match e
    case SyncPrice(id, readable) => PriceSyncedKeepsInv(s, id, readable);
    case ReadBuyRow(id) => BuyRowReadKeepsInv(s, id);
    case ReadSellRow(id) => SellRowReadKeepsInv(s, id);
    case SaveBuyRow(id) => BuyRowSavedKeepsInv(s, id);
    case SaveSellRow(id) => SellRowSavedKeepsInv(s, id);
  }

  lemma ChainStepsKeepInv(s: System, e: Event)
    requires Inv(s)
    requires e.LookForMatchState? || e.Validate? || e.CheckBuyer? || e.ExecuteBuyer? || e.CheckSeller?
             || e.ExecuteSeller?
    ensures Inv(Step(s, e))
  {
    match e
    case LookForMatchState(id, readable, ordersReadable) => LookedKeepsInv(s, id, readable, ordersReadable);
    case Validate(id, price, confirmed) => ValidationTriedKeepsInv(s, id, price, confirmed);
    case CheckBuyer(id, readable) => BuyerCheckedKeepsInv(s, id, readable);
    case ExecuteBuyer(id, confirmed) => BuyerTriedKeepsInv(s, id, confirmed);
    case CheckSeller(id, readable) => SellerCheckedKeepsInv(s, id, readable);
    case ExecuteSeller(id, confirmed) => SellerTriedKeepsInv(s, id, confirmed);
  }

  lemma StepKeepsInv(s: System, e: Event)
    requires Inv(s)
    ensures Inv(Step(s, e))
  {
    match e
    case CreateOrder(leg, price, quantity) => OrdersKeepInv(s, OrderCreated(s, leg, price, quantity).orders);
    case Start(process, pair, price, size) => StartedKeepsInv(s, process, pair, price, size);
    case Abandon(id) => if id < |s.calls| && Active(s.calls[id]) { FinishKeepsInv(s, id); }
    case Crash(process) => CrashedKeepsInv(s, process);
    case SyncPrice(_, _) => RowStepsKeepInv(s, e);
    case ReadBuyRow(_) => RowStepsKeepInv(s, e);
    case ReadSellRow(_) => RowStepsKeepInv(s, e);
    case SaveBuyRow(_) => RowStepsKeepInv(s, e);
    case SaveSellRow(_) => RowStepsKeepInv(s, e);
    case _ => ChainStepsKeepInv(s, e);
  }

  /** The protocol theorem: the invariant holds after any interleaving of any calls. */
  lemma {:induction false} RunsKeepInv(events: seq<Event>)
    ensures Inv(Run(events))
  {
    if events != [] {
      RunsKeepInv(events[..|events| - 1]);
      StepKeepsInv(Run(events[..|events| - 1]), events[|events| - 1]);
    }
  }

  // --------------------------------------------------------------------- what runs guarantee

  /** In every run each side of a pair settles at most once, and the seller's settlement
      finds the buyer's already there. */
  lemma SettlesOnceInOrder(events: seq<Event>)
    ensures var s := Run(events);
            && (forall i, j :: 0 <= i < j < |s.buyersSettled| ==> s.buyersSettled[i] != s.buyersSettled[j])
            && (forall i, j :: 0 <= i < j < |s.settlements| ==> s.settlements[i].pair != s.settlements[j].pair)
            && (forall k :: 0 <= k < |s.settlements| ==> s.settlements[k].pair in s.buyersSettled)
  {
    RunsKeepInv(events);
  }

  ghost predicate Extends(s: System, s': System) {
    && s.buyersSettled <= s'.buyersSettled
    && |s.settlements| <= |s'.settlements|
    && forall k :: 0 <= k < |s.settlements| ==>
         var x, x' := s.settlements[k], s'.settlements[k];
         x'.pair == x.pair && x'.size == x.size && x'.recorder == x.recorder
  }

  lemma SettlingExtends(s: System, id: nat, confirmed: bool)
    ensures Extends(s, BuyerTried(s, id, confirmed)) && Extends(s, SellerTried(s, id, confirmed))
  {
  }

  lemma SavingExtends(s: System, id: nat)
    ensures Extends(s, BuyRowSaved(s, id)) && Extends(s, SellRowSaved(s, id))
  {
  }

  lemma StepExtends(s: System, e: Event)
    ensures Extends(s, Step(s, e))
  {
    if e.ExecuteBuyer? || e.ExecuteSeller? {
      SettlingExtends(s, e.id, e.confirmed);
    } else if e.SaveBuyRow? || e.SaveSellRow? {
      SavingExtends(s, e.id);
    }
  }

  lemma ExtendsTransitive(s: System, t: System, u: System)
    requires Extends(s, t) && Extends(t, u)
    ensures Extends(s, u)
  {
  }

  /** Settlements are never taken back: whatever follows a run, what it has settled stays, in
      the order it happened, with its size and the call that recorded it. */
  lemma {:induction false} HistoryGrows(events: seq<Event>, more: seq<Event>)
    ensures Extends(Run(events), Run(events + more))
  {
    if more == [] {
      assert events + more == events;
    } else {
      var n := |more| - 1;
      HistoryGrows(events, more[..n]);
      ConcatInit(events, more);
      StepExtends(Run(events + more[..n]), more[n]);
      ExtendsTransitive(Run(events), Run(events + more[..n]), Step(Run(events + more[..n]), more[n]));
    }
  }

  /** In every run a fill reaches the rows of a pair at most once, through the call whose
      own seller transaction landed, and the buyer's row before the seller's. */
  lemma RecordedOnceByTheLandingCall(events: seq<Event>, k: nat, side: Side)
    requires k < |Run(events).settlements| && SavedAt(Run(events).settlements[k], side).Some?
    ensures var s := Run(events);
            var x := s.settlements[k];
            && x.recorder.Some? && x.recorder.value < |s.calls|
            && s.calls[x.recorder.value].pair == x.pair
            && SavedAt(x, side) == Some(s.calls[x.recorder.value].size)
            && x.savedBuy.Some?
            && forall j :: 0 <= j < |s.settlements| && s.settlements[j].pair == x.pair ==> j == k
  {
    RunsKeepInv(events);
  }

  /** In every run a process executes a pair by at most one call at a time. */
  lemma NoDuplicateExecution(events: seq<Event>, i: nat, j: nat)
    requires i < |Run(events).calls| && j < |Run(events).calls|
    requires Active(Run(events).calls[i]) && Active(Run(events).calls[j])
    requires Run(events).calls[i].process == Run(events).calls[j].process
    requires Run(events).calls[i].pair == Run(events).calls[j].pair
    ensures i == j
  {
    RunsKeepInv(events);
  }

  ghost predicate Holds(s: System, process: nat, pair: Pair) {
    exists i :: 0 <= i < |s.calls| && Active(s.calls[i]) && s.calls[i].process == process && s.calls[i].pair == pair
  }

  ghost predicate AllHeld(s: System) {
    forall q, p :: (q, p) in s.executing ==> Holds(s, q, p)
  }

  /** A call that stops gives its pair free. */
  predicate Releases(s: System, s': System, i: nat)
    requires i < |s.calls|
  {
    && i < |s'.calls| && s'.calls[i].process == s.calls[i].process && s'.calls[i].pair == s.calls[i].pair
    && (Active(s.calls[i]) ==> Active(s'.calls[i]) || (s.calls[i].process, s.calls[i].pair) !in s'.executing)
  }

  lemma LookReleases(s: System, e: Event, i: nat)
    requires i < |s.calls| && e.LookForMatchState?
    ensures Releases(s, Step(s, e), i)
  {
  }

  lemma ValidationReleases(s: System, e: Event, i: nat)
    requires i < |s.calls| && e.Validate?
    ensures Releases(s, Step(s, e), i)
  {
  }

  lemma SettlingReleases(s: System, e: Event, i: nat)
    requires i < |s.calls| && (e.CheckBuyer? || e.ExecuteBuyer? || e.CheckSeller? || e.ExecuteSeller?)
    ensures Releases(s, Step(s, e), i)
  {
  }

  lemma RecordingReleases(s: System, e: Event, i: nat)
    requires i < |s.calls|
    requires e.SyncPrice? || e.ReadBuyRow? || e.ReadSellRow? || e.SaveBuyRow? || e.SaveSellRow?
    ensures Releases(s, Step(s, e), i)
  {
  }

  lemma StepReleases(s: System, e: Event, i: nat)
    requires i < |s.calls|
    ensures Releases(s, Step(s, e), i)
  {
    if e.LookForMatchState? {
      LookReleases(s, e, i);
    } else if e.Validate? {
      ValidationReleases(s, e, i);
    } else if e.CheckBuyer? || e.ExecuteBuyer? || e.CheckSeller? || e.ExecuteSeller? {
      SettlingReleases(s, e, i);
    } else if !(e.CreateOrder? || e.Start? || e.Abandon? || e.Crash?) {
      RecordingReleases(s, e, i);
    }
  }

  lemma StepAcquires(s: System, e: Event, q: nat, p: Pair)
    requires (q, p) in Step(s, e).executing && (q, p) !in s.executing
    ensures Holds(Step(s, e), q, p)
  {
    assert e.Start? && Active(Step(s, e).calls[|s.calls|]);
  }

  lemma StepKeepsHeld(s: System, e: Event)
    requires AllHeld(s)
    ensures AllHeld(Step(s, e))
  {
    forall q, p | (q, p) in Step(s, e).executing
      ensures Holds(Step(s, e), q, p)
    {
      if (q, p) in s.executing {
        var i :| 0 <= i < |s.calls| && Active(s.calls[i]) && s.calls[i].process == q && s.calls[i].pair == p;
        StepReleases(s, e, i);
      } else {
        StepAcquires(s, e, q, p);
      }
    }
  }

  lemma {:induction false} RunsKeepHeld(events: seq<Event>)
    ensures AllHeld(Run(events))
  {
    if events != [] {
      RunsKeepHeld(events[..|events| - 1]);
      StepKeepsHeld(Run(events[..|events| - 1]), events[|events| - 1]);
    }
  }

  /** In every run a pair is closed to a process exactly while one of its calls is active:
      nothing keeps it closed once that call has returned, thrown or crashed. */
  lemma ExecutingExactly(events: seq<Event>, process: nat, pair: Pair)
    ensures (process, pair) in Run(events).executing <==> Holds(Run(events), process, pair)
  {
    RunsKeepInv(events);
    RunsKeepHeld(events);
  }

  /** The buyer's transaction is sent unless its settlement has been read. */
  lemma BuyerIsSentUnlessSettled(s: System, id: nat, readable: bool)
    requires Stands(s, id, CheckingBuyer) && s.calls[id].pair in s.chain
    ensures var pc := Step(s, CheckBuyer(id, readable)).calls[id].pc;
            if readable && s.chain[s.calls[id].pair].buyExecuted then pc == CheckingSeller(0) else pc == ExecutingBuyer
  {
  }

  /** The seller's transaction is sent at the fifth look at the earliest, and then exactly if
      the look succeeds and the match state has settled its buyer and not its seller. */
  lemma SellerIsSentAfterFiveLooks(s: System, id: nat, readable: bool)
    requires id < |s.calls| && s.calls[id].pc.CheckingSeller? && s.calls[id].pair in s.chain
    ensures var m, pc, k := s.chain[s.calls[id].pair], Step(s, CheckSeller(id, readable)).calls[id].pc,
                            s.calls[id].pc.checks;
            && (pc == ExecutingSeller <==> k >= 4 && readable && m.buyExecuted && !m.sellExecuted)
            && (pc == Finished <==> if readable then m.sellExecuted || !m.buyExecuted else k >= 4)
            && (pc.CheckingSeller? ==> pc.checks == k + 1)
  {
  }

  /** A call may carry another size than the match state it found: only the price is copied
      on a retry. This says that no recorded size exceeds the settled one. */
  ghost predicate SizesAgree(xs: seq<Settlement>) {
    forall k, side :: 0 <= k < |xs| && SavedAt(xs[k], side).Some? ==> SavedAt(xs[k], side).value <= xs[k].size
  }

  lemma {:induction false} SavedWithinSettled(xs: seq<Settlement>, leg: Leg)
    requires SizesAgree(xs)
    ensures SavedSum(xs, leg) <= SettledSum(xs, leg)
  {
    if xs != [] {
      assert forall k, side :: 0 <= k < |xs| - 1 ==> SavedAt(xs[..|xs| - 1][k], side) == SavedAt(xs[k], side);
      SavedWithinSettled(xs[..|xs| - 1], leg);
    }
  }

  /** In every run a row holds at most the sum of the recorded fills: lost updates between
      the separate read and save steps only under-count. With agreeing sizes it holds at
      most what the chain has settled for the order. */
  lemma FilledNeverOverCounts(events: seq<Event>, leg: Leg)
    ensures var s := Run(events);
            && FilledOf(s, leg) <= SavedSum(s.settlements, leg)
            && (SizesAgree(s.settlements) ==> FilledOf(s, leg) <= SettledSum(s.settlements, leg))
  {
    RunsKeepInv(events);
    if SizesAgree(Run(events).settlements) {
      SavedWithinSettled(Run(events).settlements, leg);
    }
  }

  ghost predicate OnlyOn(xs: seq<Settlement>, k: nat, leg: Leg) {
    k < |xs| && forall j :: 0 <= j < |xs| ==> (LegOf(xs[j].pair, leg.side) == leg <==> j == k)
  }

  lemma {:induction false} SumsOfNone(xs: seq<Settlement>, leg: Leg)
    requires forall j :: 0 <= j < |xs| ==> LegOf(xs[j].pair, leg.side) != leg
    ensures SavedSum(xs, leg) == 0 && SettledSum(xs, leg) == 0
  {
    if xs != [] {
      SumsOfNone(xs[..|xs| - 1], leg);
    }
  }

  lemma {:induction false} SumsOfOne(xs: seq<Settlement>, k: nat, leg: Leg)
    requires OnlyOn(xs, k, leg)
    ensures SavedSum(xs, leg) == SavedPart(xs[k], leg) && SettledSum(xs, leg) == xs[k].size
  {
    var n := |xs| - 1;
    if k == n {
      SumsOfNone(xs[..n], leg);
    } else {
      SumsOfOne(xs[..n], k, leg);
    }
  }

  /** For an order with a single settlement the row holds the landing call's own size, so it
      stays within the settled one exactly when the call carries no more than the match
      state that it could read before it went on. */
  lemma SingleSettlementExact(events: seq<Event>, k: nat, leg: Leg)
    requires OnlyOn(Run(events).settlements, k, leg)
    requires SavedAt(Run(events).settlements[k], leg.side).Some?
    ensures var s := Run(events);
            && s.settlements[k].recorder.Some? && s.settlements[k].recorder.value < |s.calls|
            && FilledOf(s, leg) == s.calls[s.settlements[k].recorder.value].size
            && s.settlements[k].pair in s.chain
            && (FilledOf(s, leg) <= SettledSum(s.settlements, leg) <==>
                s.calls[s.settlements[k].recorder.value].size <= s.chain[s.settlements[k].pair].size)
  {
    RunsKeepInv(events);
    var s := Run(events);
    SumsOfOne(s.settlements, k, leg);
    assert Covered(s.settlements, leg, s.filled[leg]);
  }
}
