/** Proposal of crossing order pairs: OrderBookService.matchOrders
    (backend/src/services/orderBookService.ts:178-296). */
module Matching {
  import opened Orders

  datatype Proposal = Proposal(buy: nat, sell: nat, price: Bps, size: nat)

  /** The slippage allowance of a market order, floored to whole basis points. */
  function Slippage(price: Bps): Bps {
    price / 20
  }

  /** The type-specific rule: at which price, if any, may this buy meet this sell? */
  function CrossPrice(b: Order, s: Order): Option<Bps> {
    if b.kind.MarketOrder? && s.kind.MarketOrder? then
      Some(s.price)
    else if b.kind.MarketOrder? then
      if s.price <= Min(10000, b.price + Slippage(b.price)) then Some(s.price) else None
    else if s.kind.MarketOrder? then
      if b.price >= Max(0, s.price - Slippage(s.price)) then Some(b.price) else None
    else
      if b.price >= s.price then Some(s.price) else None
  }

  /** What a buyer may be charged, stated without the flooring: a limit order its own
      price, a market order five per cent more than its price and never above one. */
  predicate BuyerAccepts(b: Order, p: Bps) {
    if b.kind.LimitOrder? then p <= b.price else 20 * p <= 21 * b.price && p <= 10000
  }

  /** What a seller may be paid: a limit order its own price, a market order five per
      cent less than its price. */
  predicate SellerAccepts(s: Order, p: Bps) {
    if s.kind.LimitOrder? then p >= s.price else 20 * p >= 19 * s.price
  }

  /** The flooring loses nothing: as soon as one side is a limit order, the rule crosses
      the pair exactly when the resting limit order's price is acceptable to both sides,
      and that price is the one proposed. */
  lemma CrossesExactlyWhenAcceptable(b: Order, s: Order)
    requires b.kind.LimitOrder? || s.kind.LimitOrder?
    ensures var maker := if s.kind.LimitOrder? then s.price else b.price;
            CrossPrice(b, s) ==
            if BuyerAccepts(b, maker) && SellerAccepts(s, maker) then Some(maker) else None
  {
  }

  /** Two market orders always cross, at the seller's price, whatever the buyer quoted:
      the five per cent bound does not apply to that pair. */
  lemma MarketPairIgnoresTolerance(b: Order, s: Order)
    requires b.kind.MarketOrder? && s.kind.MarketOrder?
    ensures CrossPrice(b, s) == Some(s.price)
    ensures BuyerAccepts(b, CrossPrice(b, s).value) <==> 20 * s.price <= 21 * b.price && s.price <= 10000
  {
  }

  predicate Crosses(t: Table, b: nat, s: nat)
    requires b < |t| && s < |t|
  {
    && Remaining(t[b]) > 0
    && Remaining(t[s]) > 0
    && TokenOf(t[b]) == TokenOf(t[s])
    && CrossPrice(t[b], t[s]).Some?
  }

  predicate ValidIds(t: Table, ids: seq<nat>) {
    forall i :: 0 <= i < |ids| ==> ids[i] < |t|
  }

  function ProposalFor(t: Table, b: nat, s: nat): Proposal
    requires b < |t| && s < |t| && Crosses(t, b, s)
  {
    Proposal(b, s, CrossPrice(t[b], t[s]).value, Min(Remaining(t[b]), Remaining(t[s])))
  }

  /** The position of the first sell in the queue that crosses this buy, |sells| if none. */
  function FirstCrossing(t: Table, b: nat, sells: seq<nat>): (j: nat)
    requires b < |t| && ValidIds(t, sells)
    ensures j <= |sells|
    ensures j < |sells| ==> Crosses(t, b, sells[j])
    ensures forall i :: 0 <= i < j ==> !Crosses(t, b, sells[i])
  {
    if sells == [] || Crosses(t, b, sells[0]) then 0
    else
      var k := FirstCrossing(t, b, sells[1..]);
      assert forall i :: 1 <= i < k + 1 ==> sells[i] == sells[1..][i - 1];
      k + 1
  }

  function Proposals(t: Table, buys: seq<nat>, sells: seq<nat>): seq<Proposal>
    requires ValidIds(t, buys) && ValidIds(t, sells)
  {
    if buys == [] then []
    else
      var b := buys[|buys| - 1];
      var j := FirstCrossing(t, b, sells);
      Proposals(t, buys[..|buys| - 1], sells) +
      if j < |sells| then [ProposalFor(t, b, sells[j])] else []
  }

  /** The nested loops of matchOrders. Nothing is decremented while matches are being
      collected, so one sell may answer several buys of the same pass. */
  method MatchOrders(t: Table, buys: seq<nat>, sells: seq<nat>) returns (matches: seq<Proposal>)
    requires ValidIds(t, buys) && ValidIds(t, sells)
    ensures matches == Proposals(t, buys, sells)
  {
    matches := [];
    for n := 0 to |buys|
      invariant matches == Proposals(t, buys[..n], sells)
    {
      var buyOrder := t[buys[n]];
      var buyRemaining := Remaining(buyOrder);
      assert buys[..n + 1][..n] == buys[..n];
      ghost var before := matches;
      var j := FirstCrossing(t, buys[n], sells);
      if buyRemaining <= 0 {
        assert j == |sells|;
        continue;
      }
      var found := false;
      for i := 0 to |sells|
        invariant !found && matches == before
        invariant j >= i
      {
        var sellOrder := t[sells[i]];
        var sellRemaining := Remaining(sellOrder);
        if sellRemaining <= 0 {
          continue;
        }
        if TokenOf(buyOrder) != TokenOf(sellOrder) {
          continue;
        }
        var canMatch, matchPrice := false, 0;
        if buyOrder.kind.MarketOrder? && sellOrder.kind.MarketOrder? {
          canMatch, matchPrice := true, sellOrder.price;
        } else if buyOrder.kind.MarketOrder? {
          var maxAcceptablePrice := Min(10000, buyOrder.price + Slippage(buyOrder.price));
          if sellOrder.price <= maxAcceptablePrice {
            canMatch, matchPrice := true, sellOrder.price;
          }
        } else if sellOrder.kind.MarketOrder? {
          var minAcceptablePrice := Max(0, sellOrder.price - Slippage(sellOrder.price));
          if buyOrder.price >= minAcceptablePrice {
            canMatch, matchPrice := true, buyOrder.price;
          }
        } else if buyOrder.price >= sellOrder.price {
          canMatch, matchPrice := true, sellOrder.price;
        }
        if canMatch {
          var matchSize := if buyRemaining < sellRemaining then buyRemaining else sellRemaining;
          matches := matches + [Proposal(buys[n], sells[i], matchPrice, matchSize)];
          found := true;
          break;
        }
      }
    }
    assert buys[..|buys|] == buys;
  }

  predicate FirstCrossingAt(t: Table, buy: nat, sells: seq<nat>, j: nat)
    requires ValidIds(t, sells) && buy < |t| && j < |sells|
  {
    Crosses(t, buy, sells[j]) && forall i :: 0 <= i < j ==> !Crosses(t, buy, sells[i])
  }

  /** `m` answers its buy with the earliest sell of the queue that crosses it. */
  ghost predicate IsFirstAnswer(t: Table, m: Proposal, sells: seq<nat>)
    requires ValidIds(t, sells)
  {
    && m.buy < |t|
    && exists j :: 0 <= j < |sells| && FirstCrossingAt(t, m.buy, sells, j) && m == ProposalFor(t, m.buy, sells[j])
  }

  /** A pass proposes exactly the first answers of the queued buys. */
  lemma {:induction false} ProposalsExact(t: Table, buys: seq<nat>, sells: seq<nat>)
    requires ValidIds(t, buys) && ValidIds(t, sells)
    ensures forall m: Proposal :: m in Proposals(t, buys, sells) <==> m.buy in buys && IsFirstAnswer(t, m, sells)
  {
    if buys != [] {
      var n := |buys| - 1;
      var b := buys[n];
      ProposalsExact(t, buys[..n], sells);
      var head := Proposals(t, buys[..n], sells);
      var ms := Proposals(t, buys, sells);
      var j := FirstCrossing(t, b, sells);
      assert buys == buys[..n] + [b];
      forall m: Proposal
        ensures m in ms <==> m.buy in buys && IsFirstAnswer(t, m, sells)
      {
        if j < |sells| && m == ProposalFor(t, b, sells[j]) {
          assert ms[|ms| - 1] == m;
        }
        if m.buy == b && IsFirstAnswer(t, m, sells) {
          var i :| 0 <= i < |sells| && FirstCrossingAt(t, m.buy, sells, i) && m == ProposalFor(t, m.buy, sells[i]);
          assert i == j;
        }
      }
    }
  }

  lemma ProposedIsFirst(t: Table, buys: seq<nat>, sells: seq<nat>, m: Proposal)
    requires ValidIds(t, buys) && ValidIds(t, sells) && m in Proposals(t, buys, sells)
    ensures m.buy in buys && IsFirstAnswer(t, m, sells)
  {
    ProposalsExact(t, buys, sells);
  }

  /** A proposal takes what both orders can still trade and completes one of them. */
  lemma ProposedSizeIsSmaller(t: Table, buys: seq<nat>, sells: seq<nat>, m: Proposal)
    requires ValidIds(t, buys) && ValidIds(t, sells) && m in Proposals(t, buys, sells)
    ensures m.buy < |t| && m.sell < |t|
    ensures 0 < m.size <= t[m.buy].size - t[m.buy].filled && m.size <= t[m.sell].size - t[m.sell].filled
    ensures m.size == t[m.buy].size - t[m.buy].filled || m.size == t[m.sell].size - t[m.sell].filled
    ensures m.buy in buys && m.sell in sells
    ensures t[m.buy].token.GetOr(Yes) == t[m.sell].token.GetOr(Yes)
  {
    ProposedIsFirst(t, buys, sells, m);
  }

  ghost predicate BuysDistinct(ms: seq<Proposal>) {
    forall k, l :: 0 <= k < l < |ms| ==> ms[k].buy != ms[l].buy
  }

  /** No buy is proposed twice in one pass. */
  lemma {:induction false} OneProposalPerBuy(t: Table, buys: seq<nat>, sells: seq<nat>)
    requires ValidIds(t, buys) && ValidIds(t, sells) && Distinct(buys)
    ensures BuysDistinct(Proposals(t, buys, sells))
  {
    if buys != [] {
      var n := |buys| - 1;
      OneProposalPerBuy(t, buys[..n], sells);
      forall k | 0 <= k < |Proposals(t, buys[..n], sells)|
        ensures Proposals(t, buys[..n], sells)[k].buy != buys[n]
      {
        OlderProposal(t, buys, sells, k);
      }
    }
  }

  lemma OlderProposal(t: Table, buys: seq<nat>, sells: seq<nat>, k: nat)
    requires ValidIds(t, buys) && ValidIds(t, sells) && Distinct(buys) && buys != []
    requires k < |Proposals(t, buys[..|buys| - 1], sells)|
    ensures Proposals(t, buys[..|buys| - 1], sells)[k].buy != buys[|buys| - 1]
  {
    var n := |buys| - 1;
    ProposalsExact(t, buys[..n], sells);
    assert Proposals(t, buys[..n], sells)[k] in Proposals(t, buys[..n], sells);
    var i :| 0 <= i < n && buys[i] == Proposals(t, buys[..n], sells)[k].buy;
  }

  ghost predicate Distinct(ids: seq<nat>) {
    forall i, j :: 0 <= i < j < |ids| ==> ids[i] != ids[j]
  }

  /** Best price first, oldest first among equals: high bids and low asks are better. */
  predicate NotWorse(a: Order, b: Order, side: Side) {
    || (a.price == b.price && a.createdAt <= b.createdAt)
    || (if side.Buy? then a.price > b.price else a.price < b.price)
  }

  /** What the two order queries return: every order of one side in an open status, once,
      best price first and oldest first among equal prices. */
  ghost predicate IsQueue(t: Table, side: Side, ids: seq<nat>) {
    && ValidIds(t, ids)
    && Distinct(ids)
    && (forall i :: 0 <= i < |t| ==> (i in ids <==> t[i].side == side && IsOpenStatus(t[i].status)))
    && (forall i, j :: 0 <= i < j < |ids| ==> NotWorse(t[ids[i]], t[ids[j]], side))
  }

  lemma EarlierIsAhead(t: Table, sells: seq<nat>, j: nat, k: nat)
    requires IsQueue(t, Sell, sells) && j <= k < |sells|
    ensures var a, b := t[sells[j]], t[sells[k]];
            j == k || a.price < b.price || (a.price == b.price && a.createdAt <= b.createdAt)
  {
    assert j < k ==> NotWorse(t[sells[j]], t[sells[k]], Sell);
  }

  /** Price-time priority: no queued sell that crosses the buy is ahead of the one proposed. */
  lemma PriceTimePriority(t: Table, buys: seq<nat>, sells: seq<nat>, m: Proposal, s: nat)
    requires IsQueue(t, Buy, buys) && IsQueue(t, Sell, sells)
    requires m in Proposals(t, buys, sells)
    requires m.buy < |t| && s < |t| && s in sells && Crosses(t, m.buy, s)
    ensures m.sell < |t|
    ensures m.sell == s || t[m.sell].price < t[s].price
            || (t[m.sell].price == t[s].price && t[m.sell].createdAt <= t[s].createdAt)
  {
    ProposedIsFirst(t, buys, sells, m);
    var j :| 0 <= j < |sells| && FirstCrossingAt(t, m.buy, sells, j) && m == ProposalFor(t, m.buy, sells[j]);
    var k :| 0 <= k < |sells| && sells[k] == s;
    assert j <= k;
    EarlierIsAhead(t, sells, j, k);
  }

  /** The queue never crosses itself: no live buy meets a live sell of its own token. */
  ghost predicate Quiet(t: Table) {
    forall b, s :: (0 <= b < |t| && t[b].side.Buy? && Live(t[b])) && (0 <= s < |t| && t[s].side.Sell? && Live(t[s]))
      ==> !Crosses(t, b, s)
  }

  /** A pass over the fetched queues finds nothing exactly when the book is quiet. */
  lemma EmptyPassIffQuiet(t: Table, buys: seq<nat>, sells: seq<nat>)
    requires IsQueue(t, Buy, buys) && IsQueue(t, Sell, sells)
    ensures Proposals(t, buys, sells) == [] <==> Quiet(t)
  {
    ProposalsExact(t, buys, sells);
    var ms := Proposals(t, buys, sells);
    if ms != [] {
      var m := ms[0];
      assert m in ms;
      assert m.sell in sells;
      assert Crosses(t, m.buy, m.sell);
    }
    if !Quiet(t) {
      var b, s :| 0 <= b < |t| && 0 <= s < |t| && t[b].side.Buy? && t[s].side.Sell?
        && Live(t[b]) && Live(t[s]) && Crosses(t, b, s);
      var j := FirstCrossing(t, b, sells);
      var k :| 0 <= k < |sells| && sells[k] == s;
      assert IsFirstAnswer(t, ProposalFor(t, b, sells[j]), sells);
      assert ProposalFor(t, b, sells[j]) in ms;
    }
  }
}
