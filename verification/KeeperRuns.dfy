/** Runs of the keeper protocol: what a call does that nobody disturbs, when its record
    exceeds what it settled, and three runs whose books end up wrong
    (backend/src/services/orderKeeperService.ts:517-602, 756-825 and 994-1398,
    programs/space-core/src/instructions/matching.rs:243-267). */
module KeeperRuns {
  import opened Orders
  import opened KeeperProtocol
  import opened KeeperAccounting

  // ------------------------------------------------------------------- extending a run

  /** What the re-read of an order row leaves to fill. */
  function RowRemaining(s: System, leg: Leg): int {
    QuantityOf(s, leg) - FilledOf(s, leg)
  }

  /** The call starts with the smaller of what its two rows leave to fill. */
  predicate StartsFromRows(s: System, e: Event) {
    e.Start? ==> e.size == Min(RowRemaining(s, LegOf(e.pair, Buy)), RowRemaining(s, LegOf(e.pair, Sell)))
  }

  predicate AllStartFromRows(events: seq<Event>) {
    events == [] ||
    var n := |events| - 1;
    AllStartFromRows(events[..n]) && StartsFromRows(Run(events[..n]), events[n])
  }

  lemma Extend(events: seq<Event>, e: Event) returns (events': seq<Event>)
    ensures Run(events') == Step(Run(events), e)
    ensures AllStartFromRows(events') <==> AllStartFromRows(events) && StartsFromRows(Run(events), e)
  {
    events' := events + [e];
    assert events'[..|events|] == events;
  }

  // One event at a time, by the name of what it does.

  lemma DoStart(events: seq<Event>, c: Call) returns (es: seq<Event>)
    ensures Run(es) == Started(Run(events), c.process, c.pair, c.price, c.size)
    ensures AllStartFromRows(es) <==>
            AllStartFromRows(events) && StartsFromRows(Run(events), Start(c.process, c.pair, c.price, c.size))
  {
    es := Extend(events, Start(c.process, c.pair, c.price, c.size));
  }

  lemma DoLook(events: seq<Event>, id: nat) returns (es: seq<Event>)
    ensures Run(es) == Looked(Run(events), id, true, true)
    ensures AllStartFromRows(es) <==> AllStartFromRows(events)
  {
    es := Extend(events, LookForMatchState(id, true, true));
  }

  lemma DoValidate(events: seq<Event>, id: nat, price: Bps) returns (es: seq<Event>)
    ensures Run(es) == ValidationTried(Run(events), id, price, true)
    ensures AllStartFromRows(es) <==> AllStartFromRows(events)
  {
    es := Extend(events, Validate(id, price, true));
  }

  lemma DoCheckBuyer(events: seq<Event>, id: nat) returns (es: seq<Event>)
    ensures Run(es) == BuyerChecked(Run(events), id, true)
    ensures AllStartFromRows(es) <==> AllStartFromRows(events)
  {
    es := Extend(events, CheckBuyer(id, true));
  }

  lemma DoExecuteBuyer(events: seq<Event>, id: nat) returns (es: seq<Event>)
    ensures Run(es) == BuyerTried(Run(events), id, true)
    ensures AllStartFromRows(es) <==> AllStartFromRows(events)
  {
    es := Extend(events, ExecuteBuyer(id, true));
  }

  lemma DoCheckSeller(events: seq<Event>, id: nat) returns (es: seq<Event>)
    ensures Run(es) == SellerChecked(Run(events), id, true)
    ensures AllStartFromRows(es) <==> AllStartFromRows(events)
  {
    es := Extend(events, CheckSeller(id, true));
  }

  lemma DoExecuteSeller(events: seq<Event>, id: nat) returns (es: seq<Event>)
    ensures Run(es) == SellerTried(Run(events), id, true)
    ensures AllStartFromRows(es) <==> AllStartFromRows(events)
  {
    es := Extend(events, ExecuteSeller(id, true));
  }

  lemma DoReads(events: seq<Event>, id: nat) returns (es: seq<Event>)
    ensures Run(es) == SellRowRead(BuyRowRead(PriceSynced(Run(events), id, false), id), id)
    ensures AllStartFromRows(es) <==> AllStartFromRows(events)
  {
    es := Extend(events, SyncPrice(id, false));
    es := Extend(es, ReadBuyRow(id));
    es := Extend(es, ReadSellRow(id));
  }

  lemma DoSaves(events: seq<Event>, id: nat) returns (es: seq<Event>)
    ensures Run(es) == SellRowSaved(BuyRowSaved(Run(events), id), id)
    ensures AllStartFromRows(es) <==> AllStartFromRows(events)
  {
    es := Extend(events, SaveBuyRow(id));
    es := Extend(es, SaveSellRow(id));
  }

  // ------------------------------------------------------------------- one call, undisturbed

  lemma MoveTwice(s: System, id: nat, a: Pc, b: Pc)
    requires id < |s.calls|
    ensures Goto(Goto(s, id, a), id, b) == Goto(s, id, b)
  {
    var c := s.calls[id];
    assert s.calls[id := c.(pc := a)][id := c.(pc := b)] == s.calls[id := c.(pc := b)];
  }

  /** The call has just been admitted and both sides can still be settled. */
  predicate Ready(s: System, id: nat) {
    && Stands(s, id, CheckingBuyer) && s.calls[id].pair in s.chain
    && !s.chain[s.calls[id].pair].sellExecuted
    && (s.chain[s.calls[id].pair].buyExecuted || BuyerSettles(s, s.calls[id].pair))
  }

  function AfterBuyer(s: System, p: Pair): System
    requires p in s.chain
  {
    if s.chain[p].buyExecuted then s else BuyerSettled(s, p)
  }

  lemma BuyerStep(s: System, id: nat)
    requires Ready(s, id) && !s.chain[s.calls[id].pair].buyExecuted
    ensures BuyerTried(BuyerChecked(s, id, true), id, true) ==
            Goto(BuyerSettled(s, s.calls[id].pair), id, CheckingSeller(0))
  {
    MoveTwice(BuyerSettled(s, s.calls[id].pair), id, ExecutingBuyer, CheckingSeller(0));
  }

  lemma BuyerStage(events: seq<Event>, id: nat) returns (es: seq<Event>)
    requires Ready(Run(events), id)
    ensures Run(es) == Goto(AfterBuyer(Run(events), Run(events).calls[id].pair), id, CheckingSeller(0))
    ensures AllStartFromRows(es) <==> AllStartFromRows(events)
  {
    var s := Run(events);
    es := DoCheckBuyer(events, id);
    if !s.chain[s.calls[id].pair].buyExecuted {
      BuyerStep(s, id);
      es := DoExecuteBuyer(es, id);
    }
  }

  lemma CheckStep(s: System, id: nat, k: nat)
    requires id < |s.calls| && SellerSettles(s, s.calls[id].pair) && k <= 4
    ensures SellerChecked(Goto(s, id, CheckingSeller(k)), id, true) ==
            Goto(s, id, if k < 4 then CheckingSeller(k + 1) else ExecutingSeller)
  {
    MoveTwice(s, id, CheckingSeller(k), if k < 4 then CheckingSeller(k + 1) else ExecutingSeller);
  }

  lemma CheckStage(events: seq<Event>, s: System, id: nat) returns (es: seq<Event>)
    requires id < |s.calls| && SellerSettles(s, s.calls[id].pair) && Run(events) == Goto(s, id, CheckingSeller(0))
    ensures Run(es) == Goto(s, id, ExecutingSeller)
    ensures AllStartFromRows(es) <==> AllStartFromRows(events)
  {
    es := events;
    for k := 0 to 4
      invariant Run(es) == Goto(s, id, CheckingSeller(k))
      invariant AllStartFromRows(es) <==> AllStartFromRows(events)
    {
      CheckStep(s, id, k);
      es := DoCheckSeller(es, id);
    }
    CheckStep(s, id, 4);
    es := DoCheckSeller(es, id);
  }

  lemma SellerStep(s: System, id: nat)
    requires id < |s.calls| && SellerSettles(s, s.calls[id].pair)
    ensures SellerTried(Goto(s, id, ExecutingSeller), id, true) ==
            Goto(SellerSettled(s, s.calls[id].pair, Some(id)), id, Recording(|s.settlements|, Syncing, 0, 0))
  {
    MoveTwice(SellerSettled(s, s.calls[id].pair, Some(id)), id, ExecutingSeller,
      Recording(|s.settlements|, Syncing, 0, 0));
  }

  lemma ReadSteps(s: System, id: nat, k: nat)
    requires id < |s.calls| && s.calls[id].pair in s.chain
    ensures var p := s.calls[id].pair;
            var buy, sell := FilledOf(s, LegOf(p, Buy)), FilledOf(s, LegOf(p, Sell));
            && PriceSynced(Goto(s, id, Recording(k, Syncing, 0, 0)), id, false) ==
               Goto(s, id, Recording(k, ReadingBuy, 0, 0))
            && BuyRowRead(Goto(s, id, Recording(k, ReadingBuy, 0, 0)), id) ==
               Goto(s, id, Recording(k, ReadingSell, buy, 0))
            && SellRowRead(Goto(s, id, Recording(k, ReadingSell, buy, 0)), id) ==
               Goto(s, id, Recording(k, SavingBuy, buy, sell))
  {
    var p := s.calls[id].pair;
    var buy, sell := FilledOf(s, LegOf(p, Buy)), FilledOf(s, LegOf(p, Sell));
    MoveTwice(s, id, Recording(k, Syncing, 0, 0), Recording(k, ReadingBuy, 0, 0));
    MoveTwice(s, id, Recording(k, ReadingBuy, 0, 0), Recording(k, ReadingSell, buy, 0));
    MoveTwice(s, id, Recording(k, ReadingSell, buy, 0), Recording(k, SavingBuy, buy, sell));
  }

  lemma ReadStage(events: seq<Event>, s: System, id: nat, k: nat) returns (es: seq<Event>)
    requires id < |s.calls| && s.calls[id].pair in s.chain && Run(events) == Goto(s, id, Recording(k, Syncing, 0, 0))
    ensures var p := s.calls[id].pair;
            Run(es) == Goto(s, id, Recording(k, SavingBuy, FilledOf(s, LegOf(p, Buy)), FilledOf(s, LegOf(p, Sell))))
    ensures AllStartFromRows(es) <==> AllStartFromRows(events)
  {
    ReadSteps(s, id, k);
    es := DoReads(events, id);
  }

  /** Both sides of the call's pair are settled, through the call itself. */
  function Settled(s: System, id: nat): System
    requires Ready(s, id)
  {
    SellerSettled(AfterBuyer(s, s.calls[id].pair), s.calls[id].pair, Some(id))
  }

  /** A ready call up to the point where it has read both rows. */
  lemma ReachSaving(events: seq<Event>, id: nat) returns (es: seq<Event>)
    requires Ready(Run(events), id)
    ensures Run(es) == Saving(Run(events), id)
    ensures AllStartFromRows(es) <==> AllStartFromRows(events)
  {
    var s := Run(events);
    var s1 := AfterBuyer(s, s.calls[id].pair);
    es := BuyerStage(events, id);
    es := CheckStage(es, s1, id);
    SellerStep(s1, id);
    es := DoExecuteSeller(es, id);
    es := ReadStage(es, Settled(s, id), id, |s.settlements|);
  }

  /** The two saves of a call that stands at its first one. */
  function RowsSaved(s: System, id: nat): System
    requires AtSave(s, id, Buy)
  {
    var c := s.calls[id];
    var k := c.pc.slot;
    Finish(s, id).(
      filled := s.filled[LegOf(c.pair, Buy) := c.pc.buySeen + c.size][LegOf(c.pair, Sell) := c.pc.sellSeen + c.size],
      settlements := s.settlements[k := s.settlements[k].(savedBuy := Some(c.size), savedSell := Some(c.size))])
  }

  lemma SaveSteps(s: System, id: nat)
    requires AtSave(s, id, Buy)
    ensures SellRowSaved(BuyRowSaved(s, id), id) == RowsSaved(s, id)
  {
    var c := s.calls[id];
    MoveTwice(s, id, c.pc.(stage := SavingSell), Finished);
    assert BuyRowSaved(s, id).calls[id] == c.(pc := c.pc.(stage := SavingSell));
  }

  lemma SaveStage(events: seq<Event>, id: nat) returns (es: seq<Event>)
    requires AtSave(Run(events), id, Buy)
    ensures Run(es) == RowsSaved(Run(events), id)
    ensures AllStartFromRows(es) <==> AllStartFromRows(events)
  {
    SaveSteps(Run(events), id);
    es := DoSaves(events, id);
  }

  /** What is left when a ready call has run to its end. */
  function Completed(s: System, id: nat): System
    requires Ready(s, id)
  {
    var c := s.calls[id];
    var buy, sell := LegOf(c.pair, Buy), LegOf(c.pair, Sell);
    Finish(Settled(s, id), id).(
      filled := s.filled[buy := FilledOf(s, buy) + c.size][sell := FilledOf(s, sell) + c.size],
      settlements := s.settlements + [Settlement(c.pair, s.chain[c.pair].size, Some(id), Some(c.size), Some(c.size))])
  }

  /** The call has settled both sides and read both rows. */
  function Saving(s: System, id: nat): System
    requires Ready(s, id)
  {
    var p := s.calls[id].pair;
    Goto(Settled(s, id), id,
      Recording(|s.settlements|, SavingBuy, FilledOf(s, LegOf(p, Buy)), FilledOf(s, LegOf(p, Sell))))
  }

  lemma SavingCompletes(s: System, id: nat)
    requires Ready(s, id)
    ensures AtSave(Saving(s, id), id, Buy) && RowsSaved(Saving(s, id), id) == Completed(s, id)
  {
    var c, k := s.calls[id], |s.settlements|;
    var x := Settlement(c.pair, s.chain[c.pair].size, Some(id), None, None);
    var y := x.(savedBuy := Some(c.size), savedSell := Some(c.size));
    MoveTwice(Settled(s, id), id, Saving(s, id).calls[id].pc, Finished);
    assert Saving(s, id).settlements == s.settlements + [x];
    assert (s.settlements + [x])[k := y] == s.settlements + [y];
  }

  /** From every reachable state, a call that stands behind its admission and is not
      disturbed settles what its match state holds, and records what it carries. */
  lemma ReadyCallCompletes(events: seq<Event>, id: nat) returns (es: seq<Event>)
    requires Ready(Run(events), id)
    ensures Run(es) == Completed(Run(events), id)
    ensures AllStartFromRows(es) <==> AllStartFromRows(events)
  {
    es := ReachSaving(events, id);
    SavingCompletes(Run(events), id);
    es := SaveStage(es, id);
  }

  lemma CompletedSums(s: System, id: nat, leg: Leg)
    requires Ready(s, id)
    ensures var c, s' := s.calls[id], Completed(s, id);
            var own := LegOf(c.pair, leg.side) == leg;
            && FilledOf(s', leg) == FilledOf(s, leg) + (if own then c.size else 0)
            && SettledSum(s'.settlements, leg) ==
               SettledSum(s.settlements, leg) + if own then s.chain[c.pair].size else 0
  {
    var c, s' := s.calls[id], Completed(s, id);
    var buy, sell := LegOf(c.pair, Buy), LegOf(c.pair, Sell);
    assert buy != sell;
    assert s'.filled == s.filled[buy := FilledOf(s, buy) + c.size][sell := FilledOf(s, sell) + c.size];
    assert LegOf(c.pair, leg.side) == leg <==> leg == buy || leg == sell;
    var x := Settlement(c.pair, s.chain[c.pair].size, Some(id), Some(c.size), Some(c.size));
    SettledSumAppend(s.settlements, x, leg);
  }

  /** Whether a row exceeds what was settled is decided when the call is admitted: from
      every reachable state in which the row agrees with the chain, the call's completion
      leaves it above, at or below the settled sum exactly as the call's size is above, at
      or below that of its match state. */
  lemma AdmissionDecides(events: seq<Event>, id: nat, side: Side) returns (es: seq<Event>)
    requires Ready(Run(events), id)
    requires var s := Run(events);
             var leg := LegOf(s.calls[id].pair, side);
             FilledOf(s, leg) == SettledSum(s.settlements, leg)
    ensures var s, s' := Run(events), Run(es);
            var c := s.calls[id];
            var leg := LegOf(c.pair, side);
            && (FilledOf(s', leg) > SettledSum(s'.settlements, leg) <==> c.size > s.chain[c.pair].size)
            && (FilledOf(s', leg) == SettledSum(s'.settlements, leg) <==> c.size == s.chain[c.pair].size)
  {
    es := ReadyCallCompletes(events, id);
    CompletedSums(Run(events), id, LegOf(Run(events).calls[id].pair, side));
  }

  // --------------------------------------------------------------------------- a new pair

  /** The call `c` has started and validated its pair. */
  function Joined(s: System, c: Call): System {
    s.(calls := s.calls + [c.(pc := CheckingBuyer)],
       executing := s.executing + {(c.process, c.pair)},
       chain := s.chain[c.pair := MatchState(c.price, FillQuantity(s, c.pair, c.size), false, false)])
  }

  /** The call `c` has started. */
  function WithCall(s: System, c: Call, pc: Pc): System {
    s.(calls := s.calls + [c.(pc := pc)], executing := s.executing + {(c.process, c.pair)})
  }

  predicate CanEnter(s: System, c: Call) {
    && c.pair !in s.chain && (c.process, c.pair) !in s.executing && c.size > 0
    && Validates(s, c.pair, c.price, c.size)
  }

  lemma WithCallMoves(s: System, c: Call, a: Pc, b: Pc)
    ensures Goto(WithCall(s, c, a), |s.calls|, b) == WithCall(s, c, b)
  {
    assert (s.calls + [c.(pc := a)])[|s.calls| := c.(pc := b)] == s.calls + [c.(pc := b)];
  }

  lemma EntrySteps(s: System, c: Call)
    requires CanEnter(s, c)
    ensures Started(s, c.process, c.pair, c.price, c.size) == WithCall(s, c, Entered)
    ensures Looked(WithCall(s, c, Entered), |s.calls|, true, true) == WithCall(s, c, Validating)
    ensures ValidationTried(WithCall(s, c, Validating), |s.calls|, c.price, true) == Joined(s, c)
  {
    WithCallMoves(s, c, Entered, Validating);
    var s1 := WithCall(s, c, Validating);
    var s2 := Validated(s1, c.pair, c.price, c.size);
    assert s2.calls[|s.calls| := s2.calls[|s.calls|].(price := c.price)] == s2.calls;
    assert s2.calls[|s.calls| := c.(pc := CheckingBuyer)] == s.calls + [c.(pc := CheckingBuyer)];
  }

  lemma EntryStage(events: seq<Event>, c: Call) returns (es: seq<Event>)
    requires CanEnter(Run(events), c)
    ensures Run(es) == Joined(Run(events), c)
    ensures AllStartFromRows(es) <==>
            AllStartFromRows(events) && StartsFromRows(Run(events), Start(c.process, c.pair, c.price, c.size))
  {
    EntrySteps(Run(events), c);
    es := DoStart(events, c);
    es := DoLook(es, |Run(events).calls|);
    es := DoValidate(es, |Run(events).calls|, c.price);
  }

  lemma NewCallCompletes(events: seq<Event>, c: Call) returns (es: seq<Event>)
    requires CanEnter(Run(events), c)
    requires FillQuantity(Run(events), c.pair, c.size) <= EscrowOf(Run(events).orders, LegOf(c.pair, Sell))
    ensures var s, id := Joined(Run(events), c), |Run(events).calls|;
            Ready(s, id) && Run(es) == Completed(s, id)
    ensures AllStartFromRows(es) <==>
            AllStartFromRows(events) && StartsFromRows(Run(events), Start(c.process, c.pair, c.price, c.size))
  {
    es := EntryStage(events, c);
    es := ReadyCallCompletes(es, |Run(events).calls|);
  }

  lemma JoinedSums(s: System, c: Call, leg: Leg)
    requires CanEnter(s, c) && FillQuantity(s, c.pair, c.size) <= EscrowOf(s.orders, LegOf(c.pair, Sell))
    ensures Ready(Joined(s, c), |s.calls|)
    ensures var s' := Completed(Joined(s, c), |s.calls|);
            var own := leg == LegOf(c.pair, leg.side);
            && FilledOf(s', leg) == FilledOf(s, leg) + (if own then c.size else 0)
            && SettledSum(s'.settlements, leg) ==
               SettledSum(s.settlements, leg) + if own then FillQuantity(s, c.pair, c.size) else 0
  {
    CompletedSums(Joined(s, c), |s.calls|, leg);
  }

  /** From every reachable state, a call that nobody disturbs settles a new pair on both
      sides for what is left of both orders on chain, provided the seller's escrow still
      holds that, and adds its own size to exactly the two rows of the pair. So rows and
      chain move together if and only if the call asks for no more than is left. */
  lemma UndisturbedCallSettles(events: seq<Event>, c: Call) returns (es: seq<Event>)
    requires CanEnter(Run(events), c)
    requires FillQuantity(Run(events), c.pair, c.size) <= EscrowOf(Run(events).orders, LegOf(c.pair, Sell))
    ensures var s, s' := Run(events), Run(es);
            && (forall leg :: FilledOf(s', leg) ==
                              FilledOf(s, leg) + if leg == LegOf(c.pair, leg.side) then c.size else 0)
            && (forall leg :: SettledSum(s'.settlements, leg) == SettledSum(s.settlements, leg) +
                              if leg == LegOf(c.pair, leg.side) then FillQuantity(s, c.pair, c.size) else 0)
            && (FillQuantity(s, c.pair, c.size) == c.size <==>
                c.size <= RemainingOnChain(s, LegOf(c.pair, Buy)) && c.size <= RemainingOnChain(s, LegOf(c.pair, Sell)))
  {
    es := NewCallCompletes(events, c);
    forall leg
      ensures FilledOf(Run(es), leg) ==
              FilledOf(Run(events), leg) + if leg == LegOf(c.pair, leg.side) then c.size else 0
      ensures SettledSum(Run(es).settlements, leg) == SettledSum(Run(events).settlements, leg) +
              if leg == LegOf(c.pair, leg.side) then FillQuantity(Run(events), c.pair, c.size) else 0
    {
      JoinedSums(Run(events), c, leg);
    }
  }

  // ------------------------------------------------------- three runs whose books are wrong

  const BUY := Leg(Buy, 0)
  const SMALL := Leg(Sell, 1)
  const SMALLER := Leg(Sell, 2)
  const LARGE := Leg(Sell, 3)

  /** A buy of 10 against sells of 5, 3 and 7. */
  const ORDERS := map[
    BUY := ChainOrder(5000, 10, 0, 10),
    SMALL := ChainOrder(5000, 5, 0, 5),
    SMALLER := ChainOrder(5000, 3, 0, 3),
    LARGE := ChainOrder(5000, 7, 0, 7)
  ]

  const OPENED := INITIAL.(orders := ORDERS)

  function NewCall(process: nat, sell: nat, size: nat): Call {
    Call(process, Pair(0, sell), 5000, size, Entered)
  }

  lemma OrdersOpen() returns (es: seq<Event>)
    ensures Run(es) == OPENED && AllStartFromRows(es)
  {
    es := Extend([], CreateOrder(BUY, 5000, 10));
    es := Extend(es, CreateOrder(SMALL, 5000, 5));
    es := Extend(es, CreateOrder(SMALLER, 5000, 3));
    es := Extend(es, CreateOrder(LARGE, 5000, 7));
  }

  const FIRST := Pair(0, 1)
  const SECOND := Pair(0, 2)
  const THIRD := Pair(0, 3)

  /** The first keeper has settled 5 and read both rows, and saved neither. */
  const FIRST_WAITS := System(
    ORDERS[BUY := ChainOrder(5000, 10, 5, 10)][SMALL := ChainOrder(5000, 5, 5, 0)],
    map[FIRST := MatchState(5000, 5, true, true)],
    [NewCall(0, 1, 5).(pc := Recording(0, SavingBuy, 0, 0))],
    {(0, FIRST)},
    map[],
    [FIRST],
    [Settlement(FIRST, 5, Some(0), None, None)])

  lemma FirstSaving(c: Call)
    requires c == NewCall(0, 1, 5)
    ensures CanEnter(OPENED, c) && Ready(Joined(OPENED, c), 0) && Saving(Joined(OPENED, c), 0) == FIRST_WAITS
  {
    var s := Joined(OPENED, c);
    assert s.calls == [c.(pc := CheckingBuyer)] && s.chain == map[FIRST := MatchState(5000, 5, false, false)];
    assert Saving(s, 0).orders == FIRST_WAITS.orders;
    assert Saving(s, 0).calls == FIRST_WAITS.calls;
    assert Saving(s, 0).settlements == FIRST_WAITS.settlements;
  }

  lemma FirstKeeperWaits() returns (es: seq<Event>)
    ensures AllStartFromRows(es) && Run(es) == FIRST_WAITS
  {
    FirstSaving(NewCall(0, 1, 5));
    es := OrdersOpen();
    es := EntryStage(es, NewCall(0, 1, 5));
    es := ReachSaving(es, 0);
  }

  /** Meanwhile the second keeper has run from start to end and settled 3. */
  const SECOND_DONE := FIRST_WAITS.(
    orders := FIRST_WAITS.orders[BUY := ChainOrder(5000, 10, 8, 10)][SMALLER := ChainOrder(5000, 3, 3, 0)],
    chain := FIRST_WAITS.chain[SECOND := MatchState(5000, 3, true, true)],
    calls := FIRST_WAITS.calls + [NewCall(1, 2, 3).(pc := Finished)],
    filled := map[BUY := 3, SMALLER := 3],
    buyersSettled := [FIRST, SECOND],
    settlements := FIRST_WAITS.settlements + [Settlement(SECOND, 3, Some(1), Some(3), Some(3))])

  lemma SecondKeeperRuns() returns (es: seq<Event>)
    ensures AllStartFromRows(es) && Run(es) == SECOND_DONE
  {
    var c := NewCall(1, 2, 3);
    es := FirstKeeperWaits();
    assert CanEnter(FIRST_WAITS, c) && FillQuantity(FIRST_WAITS, SECOND, 3) == 3;
    es := NewCallCompletes(es, c);
    SecondCompletes(c);
  }

  lemma SecondCompletes(c: Call)
    requires c == NewCall(1, 2, 3)
    ensures var s := Joined(FIRST_WAITS, c); Ready(s, 1) && Completed(s, 1) == SECOND_DONE
  {
    var s := Joined(FIRST_WAITS, c);
    assert s.calls[1] == c.(pc := CheckingBuyer) && s.chain[SECOND] == MatchState(5000, 3, false, false);
    assert Completed(s, 1).calls == SECOND_DONE.calls;
    assert Completed(s, 1).orders == SECOND_DONE.orders;
  }

  /** The first keeper has saved too: the chain has settled 8 of the buy, its row says 5. */
  const FILL_LOST := SECOND_DONE.(
    calls := [NewCall(0, 1, 5).(pc := Finished), NewCall(1, 2, 3).(pc := Finished)],
    executing := {},
    filled := map[BUY := 5, SMALLER := 3, SMALL := 5],
    settlements := [Settlement(FIRST, 5, Some(0), Some(5), Some(5)), Settlement(SECOND, 3, Some(1), Some(3), Some(3))])

  lemma FirstSaves()
    ensures AtSave(SECOND_DONE, 0, Buy) && RowsSaved(SECOND_DONE, 0) == FILL_LOST
  {
    var s := SECOND_DONE;
    assert s.calls[0] == NewCall(0, 1, 5).(pc := Recording(0, SavingBuy, 0, 0));
    assert RowsSaved(s, 0).calls == FILL_LOST.calls;
    assert RowsSaved(s, 0).settlements == FILL_LOST.settlements;
  }

  lemma LostSums()
    ensures SavedSum(FILL_LOST.settlements, BUY) == 8 && SettledSum(FILL_LOST.settlements, BUY) == 8
    ensures SettledSum(FILL_LOST.settlements, LARGE) == 0
  {
    var xs := FILL_LOST.settlements;
    assert xs == [] + [xs[0]] + [xs[1]];
    SavedSumAppend([], xs[0], BUY);
    SavedSumAppend([] + [xs[0]], xs[1], BUY);
    SettledSumAppend([], xs[0], BUY);
    SettledSumAppend([] + [xs[0]], xs[1], BUY);
    SumsOfNone(xs, LARGE);
  }

  /** A reachable lost fill: the first keeper's save of the buy row is stale. */
  lemma FillIsLost() returns (es: seq<Event>)
    ensures AllStartFromRows(es) && Run(es) == FILL_LOST && HasStaleSave(es, BUY)
    ensures FilledOf(Run(es), BUY) == 5 && SettledSum(Run(es).settlements, BUY) == 8
  {
    FirstSaves();
    LostSums();
    es := SecondKeeperRuns();
    es := SaveStage(es, 0);
    FillsLostExactly(es, BUY);
  }

  ghost predicate NoPairTwice(s: System) {
    forall i, j :: 0 <= i < j < |s.calls| ==> s.calls[i].pair != s.calls[j].pair
  }

  lemma ThirdJoins(c: Call)
    requires c == NewCall(2, 3, 5)
    ensures CanEnter(FILL_LOST, c) && FillQuantity(FILL_LOST, THIRD, 5) == 2 && EscrowOf(FILL_LOST.orders, LARGE) == 7
    ensures RowRemaining(FILL_LOST, BUY) == 5 && RowRemaining(FILL_LOST, LARGE) == 7
  {
  }

  lemma ThirdIsNew(c: Call)
    requires c == NewCall(2, 3, 5) && Ready(Joined(FILL_LOST, c), 2)
    ensures NoPairTwice(Completed(Joined(FILL_LOST, c), 2))
  {
    var calls := Completed(Joined(FILL_LOST, c), 2).calls;
    assert |calls| == 3 && calls[0].pair == FIRST && calls[1].pair == SECOND && calls[2].pair == THIRD;
  }

  /** A reachable over-count in which no pair is tried twice and every call carries what its
      rows leave to fill: after the lost fill the row of the buy still leaves 5, the chain
      only 2; so 2 are settled with a fresh sell and 5 are recorded for it. */
  lemma LostFillOverCounts() returns (es: seq<Event>)
    ensures AllStartFromRows(es) && NoPairTwice(Run(es))
    ensures FilledOf(Run(es), LARGE) == 5 && SettledSum(Run(es).settlements, LARGE) == 2
  {
    var c := NewCall(2, 3, 5);
    es := FillIsLost();
    LostSums();
    ThirdJoins(c);
    es := NewCallCompletes(es, c);
    JoinedSums(FILL_LOST, c, LARGE);
    ThirdIsNew(c);
  }

  /** The pair is validated for 5, and the call that did so is gone. */
  const VALIDATED := OPENED.(
    calls := [NewCall(0, 1, 5).(pc := Finished)],
    chain := map[FIRST := MatchState(5000, 5, false, false)])

  lemma ValidatedOnly() returns (es: seq<Event>)
    ensures Run(es) == VALIDATED
  {
    var c := NewCall(0, 1, 5);
    es := OrdersOpen();
    es := EntryStage(es, c);
    es := Extend(es, Abandon(0));
    assert Run(es).calls == [c.(pc := Finished)];
  }

  lemma RetryJoins(r: Call)
    requires r == NewCall(0, 1, 10)
    ensures var s := Looked(Started(VALIDATED, 0, FIRST, 5000, 10), 1, true, true);
            s == VALIDATED.(calls := VALIDATED.calls + [r.(pc := CheckingBuyer)], executing := {(0, FIRST)})
  {
    var s := Started(VALIDATED, 0, FIRST, 5000, 10);
    assert s.calls == VALIDATED.calls + [r];
    assert Looked(s, 1, true, true).calls == VALIDATED.calls + [r.(pc := CheckingBuyer)];
  }

  /** A reachable over-count by a retry: a first call validates the pair for 5 and is gone;
      a second one for 10 finds its match state, settles 5 and records 10. */
  lemma RetryCanOverCount() returns (es: seq<Event>)
    ensures FilledOf(Run(es), BUY) == 10 && SettledSum(Run(es).settlements, BUY) == 5
  {
    var r := NewCall(0, 1, 10);
    es := ValidatedOnly();
    RetryJoins(r);
    es := DoStart(es, r);
    es := DoLook(es, 1);
    assert SettledSum([], BUY) == 0;
    CompletedSums(Run(es), 1, BUY);
    es := ReadyCallCompletes(es, 1);
  }
}
