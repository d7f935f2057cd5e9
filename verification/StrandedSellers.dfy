/** Sellers left behind: when a buyer's side has settled and the seller's has not, can a
    later call still pay the seller? Keepers that find a match state give up if an order is
    filled (backend/src/services/orderKeeperService.ts:533-561). */
module StrandedSellers {
  import opened Orders
  import opened KeeperProtocol
  import opened KeeperAccounting
  import opened KeeperRuns

  /** The buyer of a pair is settled, its seller is not, one of the orders is filled, and
      whoever works on the pair has yet to look for its match state. */
  ghost predicate Stranded(s: System, p: Pair) {
    && p in s.chain && s.chain[p].buyExecuted && !s.chain[p].sellExecuted
    && (OrderFilled(s, LegOf(p, Buy)) || OrderFilled(s, LegOf(p, Sell)))
    && AllWait(s, p)
  }

  predicate LooksSucceed(e: Event) {
    e.LookForMatchState? ==> e.readable && e.ordersReadable
  }

  lemma ChainStepKeepsStranded(s: System, e: Event, p: Pair)
    requires Stranded(s, p)
    ensures var s' := ChainStep(s, e);
            && p in s'.chain && s'.chain[p].buyExecuted && !s'.chain[p].sellExecuted
            && (OrderFilled(s', LegOf(p, Buy)) || OrderFilled(s', LegOf(p, Sell)))
  {
  }

  /** Calls that have not looked yet, or are finished, are left alone. */
  ghost predicate WaitingUntouched(s: System, s': System) {
    && |s'.calls| == |s.calls|
    && forall i :: 0 <= i < |s.calls| && (s.calls[i].pc.Entered? || s.calls[i].pc.Finished?) ==>
       s'.calls[i] == s.calls[i]
  }

  lemma ChecksTouchNoWaiting(s: System, id: nat, readable: bool)
    ensures WaitingUntouched(s, BuyerChecked(s, id, readable)) && WaitingUntouched(s, SellerChecked(s, id, readable))
  {
  }

  lemma ValidationTouchesNoWaiting(s: System, id: nat, price: Bps, confirmed: bool)
    ensures WaitingUntouched(s, ValidationTried(s, id, price, confirmed))
  {
  }

  lemma SettlingTouchesNoWaiting(s: System, id: nat, confirmed: bool)
    ensures WaitingUntouched(s, BuyerTried(s, id, confirmed)) && WaitingUntouched(s, SellerTried(s, id, confirmed))
  {
  }

  lemma ReadsTouchNoWaiting(s: System, id: nat, readable: bool)
    ensures WaitingUntouched(s, PriceSynced(s, id, readable))
    ensures WaitingUntouched(s, BuyRowRead(s, id)) && WaitingUntouched(s, SellRowRead(s, id))
  {
  }

  lemma SavesTouchNoWaiting(s: System, id: nat)
    ensures WaitingUntouched(s, BuyRowSaved(s, id)) && WaitingUntouched(s, SellRowSaved(s, id))
  {
  }

  ghost predicate AllWait(s: System, p: Pair) {
    forall i :: 0 <= i < |s.calls| && s.calls[i].pair == p ==> s.calls[i].pc.Entered? || s.calls[i].pc.Finished?
  }

  lemma UntouchedWait(s: System, s': System, p: Pair)
    requires AllWait(s, p) && WaitingUntouched(s, s') && CallsPersist(s, s')
    ensures AllWait(s', p)
  {
    forall i | 0 <= i < |s'.calls| && s'.calls[i].pair == p
      ensures s'.calls[i].pc.Entered? || s'.calls[i].pc.Finished?
    {
      assert s.calls[i].pair == p;
    }
  }

  lemma LookedKeepsWaiting(s: System, id: nat, p: Pair)
    requires Stranded(s, p)
    ensures AllWait(Looked(s, id, true, true), p)
  {
  }

  lemma CallEventsKeepWaiting(s: System, e: Event, p: Pair)
    requires AllWait(s, p) && (e.CreateOrder? || e.Start? || e.Abandon? || e.Crash?)
    ensures AllWait(Step(s, e), p)
  {
  }

  lemma StepUntouched(s: System, e: Event)
    requires !e.CreateOrder? && !e.Start? && !e.Abandon? && !e.Crash? && !e.LookForMatchState?
    ensures WaitingUntouched(s, Step(s, e))
  {
    match e
    case Validate(id, price, confirmed) => ValidationTouchesNoWaiting(s, id, price, confirmed);
    case CheckBuyer(id, readable) => ChecksTouchNoWaiting(s, id, readable);
    case CheckSeller(id, readable) => ChecksTouchNoWaiting(s, id, readable);
    case ExecuteBuyer(id, confirmed) => SettlingTouchesNoWaiting(s, id, confirmed);
    case ExecuteSeller(id, confirmed) => SettlingTouchesNoWaiting(s, id, confirmed);
    case SyncPrice(id, readable) => ReadsTouchNoWaiting(s, id, readable);
    case ReadBuyRow(id) => ReadsTouchNoWaiting(s, id, false);
    case ReadSellRow(id) => ReadsTouchNoWaiting(s, id, false);
    case SaveBuyRow(id) => SavesTouchNoWaiting(s, id);
    case SaveSellRow(id) => SavesTouchNoWaiting(s, id);
  }

  lemma StepKeepsWaiting(s: System, e: Event, p: Pair)
    requires Stranded(s, p) && LooksSucceed(e)
    ensures AllWait(Step(s, e), p)
  {
    if e.CreateOrder? || e.Start? || e.Abandon? || e.Crash? {
      CallEventsKeepWaiting(s, e, p);
    } else if e.LookForMatchState? {
      LookedKeepsWaiting(s, e.id, p);
    } else {
      StepUntouched(s, e);
      StepKeepsCalls(s, e);
      UntouchedWait(s, Step(s, e), p);
    }
  }

  lemma StepKeepsStranded(s: System, e: Event, p: Pair)
    requires Stranded(s, p) && LooksSucceed(e)
    ensures Stranded(Step(s, e), p)
  {
    ChainStepKeepsStranded(s, e, p);
    StepOnChain(s, e);
    StepKeepsWaiting(s, e, p);
  }

  lemma RunOfLonger(events: seq<Event>, more: seq<Event>)
    requires more != []
    ensures Run(events + more) == Step(Run(events + more[..|more| - 1]), more[|more| - 1])
  {
    ConcatInit(events, more);
  }

  lemma {:induction false} RunsKeepStranded(events: seq<Event>, more: seq<Event>, p: Pair)
    requires Stranded(Run(events), p) && forall k :: 0 <= k < |more| ==> LooksSucceed(more[k])
    ensures Stranded(Run(events + more), p)
  {
    if more == [] {
      assert events + more == events;
    } else {
      var n := |more| - 1;
      RunsKeepStranded(events, more[..n], p);
      StepKeepsStranded(Run(events + more[..n]), more[n], p);
      RunOfLonger(events, more);
    }
  }

  /** Once the buyer's settlement has filled an order and its call is gone, no continuation
      in which the keepers can read the match state and the orders ever pays the seller:
      every later call on the pair gives up because an order is filled. */
  lemma StrandedForGood(events: seq<Event>, more: seq<Event>, p: Pair)
    requires Stranded(Run(events), p) && forall k :: 0 <= k < |more| ==> LooksSucceed(more[k])
    ensures forall k :: 0 <= k < |Run(events + more).settlements| ==> Run(events + more).settlements[k].pair != p
  {
    RunsKeepStranded(events, more, p);
    RunsKeepInv(events + more);
  }

  // -------------------------------------------------------------- and those who are not

  ghost predicate Paid(s: System, p: Pair) {
    exists k :: 0 <= k < |s.settlements| && s.settlements[k].pair == p
  }

  predicate AllLooksSucceed(more: seq<Event>) {
    forall k :: 0 <= k < |more| ==> LooksSucceed(more[k])
  }

  /** The call works on the pair and will get through: it is past its look, or it has yet to
      look and no order is filled. */
  predicate GetsThrough(s: System, id: nat, p: Pair) {
    && id < |s.calls| && s.calls[id].pair == p
    && match s.calls[id].pc
       case Entered => !OrderFilled(s, LegOf(p, Buy)) && !OrderFilled(s, LegOf(p, Sell))
       case Recording(_, _, _, _) => false
       case Finished => false
       case _ => true
  }

  /** How many steps the call is away from the seller instruction. */
  function Distance(pc: Pc): nat {
    match pc
    case Entered => 9
    case Validating => 8
    case CheckingBuyer => 7
    case ExecutingBuyer => 6
    case CheckingSeller(checks) => if checks < 4 then 5 - checks else 1
    case _ => 0
  }

  function NextEvent(id: nat, pc: Pc): Event {
    match pc
    case Entered => LookForMatchState(id, true, true)
    case Validating => Validate(id, 0, true)
    case CheckingBuyer => CheckBuyer(id, true)
    case ExecutingBuyer => ExecuteBuyer(id, true)
    case CheckingSeller(_) => CheckSeller(id, true)
    case _ => ExecuteSeller(id, true)
  }

  lemma EntryMoves(s: System, id: nat, p: Pair)
    requires SellerSettles(s, p) && GetsThrough(s, id, p)
    ensures s.calls[id].pc.Entered? ==>
            var s' := Looked(s, id, true, true);
            SameOnChain(s, s') && GetsThrough(s', id, p) && s'.calls[id].pc.CheckingBuyer?
    ensures s.calls[id].pc.Validating? ==>
            var s' := ValidationTried(s, id, 0, true);
            SameOnChain(s, s') && GetsThrough(s', id, p) && s'.calls[id].pc.CheckingBuyer?
  {
  }

  lemma CheckMoves(s: System, id: nat, p: Pair)
    requires SellerSettles(s, p) && GetsThrough(s, id, p)
    ensures s.calls[id].pc.CheckingBuyer? ==>
            var s' := BuyerChecked(s, id, true);
            SameOnChain(s, s') && GetsThrough(s', id, p) && s'.calls[id].pc == CheckingSeller(0)
    ensures s.calls[id].pc.ExecutingBuyer? ==>
            var s' := BuyerTried(s, id, true);
            SameOnChain(s, s') && GetsThrough(s', id, p) && s'.calls[id].pc == CheckingSeller(0)
    ensures s.calls[id].pc.CheckingSeller? ==>
            var s' := SellerChecked(s, id, true);
            SameOnChain(s, s') && GetsThrough(s', id, p) && Distance(s'.calls[id].pc) < Distance(s.calls[id].pc)
  {
  }

  /** One event brings the call closer and leaves the chain alone, up to the last one. */
  lemma NextIsCloser(s: System, id: nat, p: Pair)
    requires SellerSettles(s, p) && GetsThrough(s, id, p) && !s.calls[id].pc.ExecutingSeller?
    ensures var s' := Step(s, NextEvent(id, s.calls[id].pc));
            && SellerSettles(s', p) && GetsThrough(s', id, p)
            && Distance(s'.calls[id].pc) < Distance(s.calls[id].pc)
  {
    EntryMoves(s, id, p);
    CheckMoves(s, id, p);
  }

  lemma LastPays(s: System, id: nat, p: Pair)
    requires SellerSettles(s, p) && GetsThrough(s, id, p) && s.calls[id].pc.ExecutingSeller?
    ensures Paid(SellerTried(s, id, true), p)
  {
    var s' := SellerTried(s, id, true);
    assert s'.settlements[|s.settlements|].pair == p;
  }

  /** The state after one more event, and what goes for the rest of the run from there. */
  lemma Prepend(events: seq<Event>, e: Event, rest: seq<Event>)
    requires LooksSucceed(e) && AllLooksSucceed(rest)
    ensures AllLooksSucceed([e] + rest) && Run(events + ([e] + rest)) == Run(events + [e] + rest)
  {
    assert events + ([e] + rest) == events + [e] + rest;
  }

  lemma RunNext(events: seq<Event>, id: nat, p: Pair) returns (es: seq<Event>)
    requires SellerSettles(Run(events), p) && GetsThrough(Run(events), id, p)
    ensures var pc := Run(events).calls[id].pc;
            && es == events + [NextEvent(id, pc)] && LooksSucceed(NextEvent(id, pc))
            && if pc.ExecutingSeller? then Paid(Run(es), p)
               else
                 && SellerSettles(Run(es), p) && GetsThrough(Run(es), id, p)
                 && Distance(Run(es).calls[id].pc) < Distance(pc)
  {
    var s := Run(events);
    es := events + [NextEvent(id, s.calls[id].pc)];
    AppendInit(events, NextEvent(id, s.calls[id].pc));
    if s.calls[id].pc.ExecutingSeller? {
      LastPays(s, id, p);
    } else {
      NextIsCloser(s, id, p);
    }
  }

  /** A call that gets through pays the seller within ten events. */
  lemma {:induction false} CallPays(events: seq<Event>, id: nat, p: Pair) returns (more: seq<Event>)
    requires SellerSettles(Run(events), p) && GetsThrough(Run(events), id, p)
    ensures AllLooksSucceed(more) && Paid(Run(events + more), p)
    decreases Distance(Run(events).calls[id].pc)
  {
    var e := NextEvent(id, Run(events).calls[id].pc);
    var es := RunNext(events, id, p);
    if Run(events).calls[id].pc.ExecutingSeller? {
      more := [e];
    } else {
      var rest := CallPays(es, id, p);
      Prepend(events, e, rest);
      more := [e] + rest;
    }
  }

  /** There is always another process. */
  lemma {:induction false} FreshProcess(executing: set<(nat, Pair)>) returns (process: nat)
    ensures forall q, p :: (q, p) in executing ==> q < process
  {
    if executing == {} {
      process := 0;
    } else {
      var x: (nat, Pair) :| x in executing;
      process := FreshProcess(executing - {x});
      process := if x.0 < process then process else x.0 + 1;
      assert forall q, p :: (q, p) in executing ==> (q, p) == x || (q, p) in executing - {x};
    }
  }

  lemma NobodyRecords(s: System, i: nat, p: Pair)
    requires Inv(s) && p in s.chain && !s.chain[p].sellExecuted && i < |s.calls| && s.calls[i].pair == p
    ensures !s.calls[i].pc.Recording?
  {
    assert s.calls[i].pc.Recording? ==> SlotOk(s, i);
  }

  lemma SomebodyGetsThrough(s: System, p: Pair) returns (id: nat)
    requires Inv(s) && p in s.chain && !s.chain[p].sellExecuted && !AllWait(s, p)
    ensures GetsThrough(s, id, p)
  {
    id :| id < |s.calls| && s.calls[id].pair == p && !s.calls[id].pc.Entered? && !s.calls[id].pc.Finished?;
    NobodyRecords(s, id, p);
  }

  lemma NewcomerGetsThrough(s: System, process: nat, p: Pair)
    requires SellerSettles(s, p) && (process, p) !in s.executing
    requires !OrderFilled(s, LegOf(p, Buy)) && !OrderFilled(s, LegOf(p, Sell))
    ensures var s' := Started(s, process, p, 1, 1); SellerSettles(s', p) && GetsThrough(s', |s.calls|, p)
  {
  }

  lemma NewcomerStarts(events: seq<Event>, process: nat, p: Pair)
    requires SellerSettles(Run(events), p) && (process, p) !in Run(events).executing
    requires !OrderFilled(Run(events), LegOf(p, Buy)) && !OrderFilled(Run(events), LegOf(p, Sell))
    ensures var s' := Run(events + [Start(process, p, 1, 1)]);
            SellerSettles(s', p) && GetsThrough(s', |Run(events).calls|, p)
  {
    NewcomerGetsThrough(Run(events), process, p);
    AppendInit(events, Start(process, p, 1, 1));
  }

  /** Every unpaid seller who is not stranded can still be paid: by a call that is already
      past its look, or by one that starts now. */
  lemma OthersCanBePaid(events: seq<Event>, p: Pair) returns (more: seq<Event>)
    requires SellerSettles(Run(events), p) && !Stranded(Run(events), p)
    ensures AllLooksSucceed(more) && Paid(Run(events + more), p)
  {
    var s := Run(events);
    RunsKeepInv(events);
    if AllWait(s, p) {
      var process := FreshProcess(s.executing);
      var e := Start(process, p, 1, 1);
      NewcomerStarts(events, process, p);
      var rest := CallPays(events + [e], |s.calls|, p);
      Prepend(events, e, rest);
      more := [e] + rest;
    } else {
      var id := SomebodyGetsThrough(s, p);
      more := CallPays(events, id, p);
    }
  }

  ghost predicate CanBePaid(events: seq<Event>, p: Pair) {
    exists more :: AllLooksSucceed(more) && Paid(Run(events + more), p)
  }

  /** In every run, an unpaid seller can be paid by some continuation in which keepers can
      read the chain if and only if it is not stranded. */
  lemma PayableExactly(events: seq<Event>, p: Pair)
    requires SellerSettles(Run(events), p)
    ensures CanBePaid(events, p) <==> !Stranded(Run(events), p)
  {
    if Stranded(Run(events), p) {
      forall more | AllLooksSucceed(more)
        ensures !Paid(Run(events + more), p)
      {
        StrandedForGood(events, more, p);
      }
    } else {
      var more := OthersCanBePaid(events, p);
    }
  }

  // --------------------------------------------------------------------- a stranded seller

  const EVEN := INITIAL.(orders := map[BUY := ChainOrder(5000, 5, 0, 5), SMALL := ChainOrder(5000, 5, 0, 5)])

  lemma BuyerLandsUnseen(c: Call)
    requires c == NewCall(0, 1, 5) && CanEnter(EVEN, c)
    ensures var s := BuyerTried(BuyerChecked(Joined(EVEN, c), 0, true), 0, false);
            Stranded(s, FIRST) && FilledOnChain(s, BUY) == 5 && FilledOnChain(s, SMALL) == 0
  {
    var s := Joined(EVEN, c);
    assert s.calls == [c.(pc := CheckingBuyer)] && s.chain == map[FIRST := MatchState(5000, 5, false, false)];
    assert BuyerChecked(s, 0, true).calls == [c.(pc := ExecutingBuyer)];
  }

  lemma EvenOrders() returns (es: seq<Event>)
    ensures Run(es) == EVEN
  {
    es := Extend([], CreateOrder(BUY, 5000, 5));
    es := Extend(es, CreateOrder(SMALL, 5000, 5));
  }

  lemma DoExecuteUnseen(events: seq<Event>, id: nat) returns (es: seq<Event>)
    ensures Run(es) == BuyerTried(Run(events), id, false)
  {
    es := Extend(events, ExecuteBuyer(id, false));
  }

  /** One confirmation that does not arrive strands a seller. */
  lemma SellerIsStranded() returns (es: seq<Event>)
    ensures Stranded(Run(es), FIRST) && FilledOnChain(Run(es), BUY) == 5 && FilledOnChain(Run(es), SMALL) == 0
  {
    var c := NewCall(0, 1, 5);
    es := EvenOrders();
    es := EntryStage(es, c);
    BuyerLandsUnseen(c);
    es := DoCheckBuyer(es, 0);
    es := DoExecuteUnseen(es, 0);
  }
}
