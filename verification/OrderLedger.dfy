/** Recording of fills, placement and cancellation of orders, as one sequential program
    over the order table and the market's volume counter
    (backend/src/services/orderKeeperService.ts:275-297 and 1352-1446,
    backend/src/services/orderService.ts:83-110 and 425-453). */
module OrderLedger {
  import opened Orders
  import opened Matching
  import opened FillPrice

  datatype Trade = Trade(buy: nat, sell: nat, price: Bps, size: nat)

  /** The order table, the market's totalVolume and the trades recorded so far. */
  datatype Book = Book(rows: Table, volume: nat, log: seq<Trade>)

  // ---------------------------------------------------------------- single operations

  function FillOrder(o: Order, price: Bps, size: nat): Order
    requires size > 0
  {
    var filled := o.filled + size;
    var oldAvg := if o.avgFillPrice.Some? then o.avgFillPrice.value else 0;
    o.(filled := filled,
       avgFillPrice := Some(Fold(oldAvg, o.filled, price, size)),
       status := if filled >= o.size then Filled else if filled > 0 then PartiallyFilled else o.status)
  }

  function TradeValue(price: Bps, size: nat, quoteDecimals: nat): nat {
    size * price / 10000 * QuoteScale(quoteDecimals)
  }

  /** Both rows are read before either is saved. */
  function RecordFill(bk: Book, t: Trade, quoteDecimals: nat): Book
    requires t.buy < |bk.rows| && t.sell < |bk.rows| && t.size > 0
  {
    Book(bk.rows[t.buy := FillOrder(bk.rows[t.buy], t.price, t.size)]
                [t.sell := FillOrder(bk.rows[t.sell], t.price, t.size)],
         bk.volume + TradeValue(t.price, t.size, quoteDecimals),
         bk.log + [t])
  }

  /** Recording touches the two rows only, leaves their terms alone, and leaves them filled
      or partially filled as their new sums say, whatever their status was. */
  lemma RecordFillTouches(bk: Book, t: Trade, quoteDecimals: nat, k: nat)
    requires t.buy < |bk.rows| && t.sell < |bk.rows| && t.size > 0 && k < |bk.rows|
    ensures var bk' := RecordFill(bk, t, quoteDecimals);
            && |bk'.rows| == |bk.rows|
            && var o, o' := bk.rows[k], bk'.rows[k];
               && o' == o.(filled := o'.filled, avgFillPrice := o'.avgFillPrice, status := o'.status)
               && o'.filled == o.filled + (if k == t.buy || k == t.sell then t.size else 0)
               && if k == t.buy || k == t.sell then
                    o'.avgFillPrice.Some? && o'.status == if o'.filled >= o.size then Filled else PartiallyFilled
                  else o' == o
  {
  }

  /** The keeper's re-read of one proposal. Only `filled` is rejected, not `cancelled`. */
  predicate StillFillable(rows: Table, m: Proposal) {
    && m.buy < |rows| && m.sell < |rows|
    && !rows[m.buy].status.Filled? && !rows[m.sell].status.Filled?
    && Remaining(rows[m.buy]) > 0 && Remaining(rows[m.sell]) > 0
  }

  /** One proposal of a pass; `settled` says whether its on-chain settlement landed. */
  function Attempt(bk: Book, m: Proposal, settled: bool, quoteDecimals: nat): Book {
    if settled && StillFillable(bk.rows, m) then
      var size := Min(Remaining(bk.rows[m.buy]), Remaining(bk.rows[m.sell]));
      RecordFill(bk, Trade(m.buy, m.sell, m.price, size), quoteDecimals)
    else bk
  }

  function Pass(bk: Book, ms: seq<Proposal>, settled: seq<bool>, quoteDecimals: nat): Book
    requires |ms| == |settled|
  {
    if ms == [] then bk
    else
      var n := |ms| - 1;
      Attempt(Pass(bk, ms[..n], settled[..n], quoteDecimals), ms[n], settled[n], quoteDecimals)
  }

  // -------------------------------------------------------------------- what a pass does

  /** At its turn a proposal is filled if its settlement landed, neither row is marked filled
      and both have something left. */
  predicate FilledAtTurn(rows: Table, m: Proposal, settled: bool) {
    && settled && m.buy < |rows| && m.sell < |rows|
    && rows[m.buy].status != Filled && rows[m.sell].status != Filled
    && rows[m.buy].filled < rows[m.buy].size && rows[m.sell].filled < rows[m.sell].size
  }

  /** The trade that such a turn records: the proposal's orders and price, and a size that
      both orders can trade and that completes one of them. */
  predicate IsTurnTrade(rows: Table, m: Proposal, t: Trade)
    requires m.buy < |rows| && m.sell < |rows|
  {
    var buyLeft, sellLeft := rows[m.buy].size - rows[m.buy].filled, rows[m.sell].size - rows[m.sell].filled;
    && t.buy == m.buy && t.sell == m.sell && t.price == m.price
    && t.size <= buyLeft && t.size <= sellLeft && (t.size == buyLeft || t.size == sellLeft)
  }

  /** The turns of a pass, one by one: a proposal that is filled appends its trade and moves
      its two rows by that size; any other leaves the whole book as it was. */
  lemma PassTurn(bk: Book, ms: seq<Proposal>, settled: seq<bool>, k: nat, quoteDecimals: nat)
    requires |ms| == |settled| && k < |ms|
    ensures var a := Pass(bk, ms[..k], settled[..k], quoteDecimals);
            var b := Pass(bk, ms[..k + 1], settled[..k + 1], quoteDecimals);
            if FilledAtTurn(a.rows, ms[k], settled[k]) then
              && |b.log| == |a.log| + 1 && b.log[..|a.log|] == a.log && IsTurnTrade(a.rows, ms[k], b.log[|a.log|])
              && |b.rows| == |a.rows|
              && (forall i :: 0 <= i < |a.rows| ==>
                    b.rows[i].filled ==
                    a.rows[i].filled + if i == ms[k].buy || i == ms[k].sell then b.log[|a.log|].size else 0)
              && b.volume == a.volume + TradeValue(ms[k].price, b.log[|a.log|].size, quoteDecimals)
            else b == a
  {
    assert ms[..k + 1][..k] == ms[..k] && settled[..k + 1][..k] == settled[..k];
  }

  /** A settled proposal of the pass names the row. */
  predicate SettledNames(ms: seq<Proposal>, settled: seq<bool>, id: nat)
    requires |ms| == |settled|
  {
    exists k :: 0 <= k < |ms| && settled[k] && (ms[k].buy == id || ms[k].sell == id)
  }

  /** A pass changes a row only if a proposal whose settlement landed names it. */
  lemma {:induction false} PassTouchesSettledOnly(bk: Book, ms: seq<Proposal>, settled: seq<bool>, id: nat,
                                                  quoteDecimals: nat)
    requires |ms| == |settled| && id < |bk.rows|
    ensures |Pass(bk, ms, settled, quoteDecimals).rows| == |bk.rows|
    ensures Pass(bk, ms, settled, quoteDecimals).rows[id] != bk.rows[id] ==> SettledNames(ms, settled, id)
  {
    if ms != [] {
      var n := |ms| - 1;
      PassTouchesSettledOnly(bk, ms[..n], settled[..n], id, quoteDecimals);
      if SettledNames(ms[..n], settled[..n], id) {
        var k :| 0 <= k < n && settled[..n][k] && (ms[..n][k].buy == id || ms[..n][k].sell == id);
        assert settled[k] && (ms[k].buy == id || ms[k].sell == id);
      }
    }
  }

  /** A pass in which nothing settles leaves the book as it was. */
  lemma {:induction false} NothingSettledNothingChanges(bk: Book, ms: seq<Proposal>, settled: seq<bool>,
                                                        quoteDecimals: nat)
    requires |ms| == |settled| && forall k :: 0 <= k < |settled| ==> !settled[k]
    ensures Pass(bk, ms, settled, quoteDecimals) == bk
  {
    if ms != [] {
      NothingSettledNothingChanges(bk, ms[..|ms| - 1], settled[..|ms| - 1], quoteDecimals);
    }
  }

  /** A proposal that is re-read at once fills exactly the size it was proposed with. */
  lemma ImmediateRereadFillsProposal(bk: Book, buys: seq<nat>, sells: seq<nat>, m: Proposal, quoteDecimals: nat)
    requires IsQueue(bk.rows, Buy, buys) && IsQueue(bk.rows, Sell, sells) && m in Proposals(bk.rows, buys, sells)
    ensures Pass(bk, [m], [true], quoteDecimals).log == bk.log + [Trade(m.buy, m.sell, m.price, m.size)]
  {
    ProposedSizeIsSmaller(bk.rows, buys, sells, m);
    assert [m][..0] == [] && [true][..0] == [];
    assert m.buy in buys && m.sell in sells;
  }

  /** The value of a trade: a whole number of base units per share unit, of which it is the
      greatest that does not exceed size times price over ten thousand. */
  lemma TradeValueIsFloored(price: Bps, size: nat, quoteDecimals: nat) returns (units: nat)
    ensures 10000 * units <= size * price < 10000 * (units + 1)
    ensures TradeValue(price, size, quoteDecimals) == units * QuoteScale(quoteDecimals)
    ensures quoteDecimals <= 6 ==> TradeValue(price, size, quoteDecimals) == units
  {
    units := size * price / 10000;
    if quoteDecimals <= 6 {
      assert QuoteScale(quoteDecimals) == 1;
    }
  }

  datatype Ticket = Ticket(side: Side, kind: Kind, price: Bps, size: nat, token: Option<Token>, user: string,
                           createdAt: nat)

  /** Orders are created open; the re-read that follows turns an order with nothing to
      fill into a filled one. */
  function NewOrder(k: Ticket): Order {
    var status := if k.size == 0 then Filled else Open;
    Order(k.side, k.kind, k.price, k.size, 0, None, status, Some(k.token.GetOr(Yes)), k.user, k.createdAt)
  }

  function Place(bk: Book, k: Ticket): Book {
    if k.price == 0 then bk else bk.(rows := bk.rows + [NewOrder(k)])
  }

  predicate CanCancel(rows: Table, id: nat, user: Option<string>) {
    id < |rows| && (user.Some? && user.value != "" ==> rows[id].user == user.value) && !rows[id].status.Filled?
  }

  function Cancel(bk: Book, id: nat, user: Option<string>): Book {
    if CanCancel(bk.rows, id, user) then bk.(rows := bk.rows[id := bk.rows[id].(status := Cancelled)]) else bk
  }

  class OrderStore {
    var rows: Table
    var totalVolume: nat
    const quoteDecimals: nat
    ghost var log: seq<Trade>

    ghost function Contents(): Book
      reads this
    {
      Book(rows, totalVolume, log)
    }

    constructor (quoteDecimals: nat)
      ensures Contents() == Book([], 0, []) && this.quoteDecimals == quoteDecimals
    {
      rows, totalVolume, log := [], 0, [];
      this.quoteDecimals := quoteDecimals;
    }

    method PlaceOrder(k: Ticket) returns (r: Result<nat>)
      modifies this
      ensures Contents() == Place(old(Contents()), k)
      ensures r.Ok? <==> k.price != 0
      ensures r.Ok? ==> r.value == |old(rows)| && |rows| == |old(rows)| + 1
      ensures r.Ok? ==>
              var o := rows[r.value];
              && o.side == k.side && o.kind == k.kind && o.price == k.price && o.size == k.size && o.user == k.user
              && o.createdAt == k.createdAt && o.token == Some(k.token.GetOr(Yes))
              && o.filled == 0 && o.avgFillPrice == None && o.status == if k.size == 0 then Filled else Open
      ensures forall i :: 0 <= i < |old(rows)| && i < |rows| ==> rows[i] == old(rows)[i]
    {
      if k.price == 0 {
        return Err("Price is required for limit orders");
      }
      var token := match k.token case Some(t) => t case None => Yes;
      var id := |rows|;
      rows := rows + [Order(k.side, k.kind, k.price, k.size, 0, None, Open, Some(token), k.user, k.createdAt)];
      var updated := rows[id];
      if updated.filled >= updated.size {
        rows := rows[id := updated.(status := Filled)];
      }
      return Ok(id);
    }

    /** Cancelling hands back exactly the part that was not filled. */
    method CancelOrder(id: nat, user: Option<string>) returns (r: Result<int>)
      modifies this
      ensures Contents() == Cancel(old(Contents()), id, user)
      ensures r.Ok? <==>
              && id < |old(rows)| && old(rows)[id].status != Filled
              && (user == None || user == Some("") || user == Some(old(rows)[id].user))
      ensures r.Ok? ==> r.value == old(rows)[id].size - old(rows)[id].filled
                        && rows == old(rows)[id := old(rows)[id].(status := Cancelled)]
      ensures r.Err? ==> rows == old(rows)
    {
      if id >= |rows| {
        return Err("Order not found");
      }
      var order := rows[id];
      if user.Some? && user.value != "" && order.user != user.value {
        return Err("Unauthorized: You can only cancel your own orders");
      }
      if order.status == Filled {
        return Err("Cannot cancel filled order");
      }
      var unlockedAmount := order.size - order.filled;
      rows := rows[id := order.(status := Cancelled)];
      return Ok(unlockedAmount);
    }

    method RecordMatch(buy: nat, sell: nat, matchPrice: Bps, matchSize: nat)
      requires buy < |rows| && sell < |rows| && matchSize > 0
      modifies this
      ensures Contents() == RecordFill(old(Contents()), Trade(buy, sell, matchPrice, matchSize), quoteDecimals)
    {
      var buyRecord, sellRecord := rows[buy], rows[sell];
      var buyFilled := buyRecord.filled + matchSize;
      var sellFilled := sellRecord.filled + matchSize;
      var oldBuyAvg := match buyRecord.avgFillPrice case Some(a) => a case None => 0;
      var oldSellAvg := match sellRecord.avgFillPrice case Some(a) => a case None => 0;
      var buyAvg := Fold(oldBuyAvg, buyRecord.filled, matchPrice, matchSize);
      var sellAvg := Fold(oldSellAvg, sellRecord.filled, matchPrice, matchSize);
      var buyStatus := buyRecord.status;
      if buyFilled >= buyRecord.size {
        buyStatus := Filled;
      } else if buyFilled > 0 {
        buyStatus := PartiallyFilled;
      }
      var sellStatus := sellRecord.status;
      if sellFilled >= sellRecord.size {
        sellStatus := Filled;
      } else if sellFilled > 0 {
        sellStatus := PartiallyFilled;
      }
      rows := rows[buy := buyRecord.(filled := buyFilled, avgFillPrice := Some(buyAvg), status := buyStatus)];
      rows := rows[sell := sellRecord.(filled := sellFilled, avgFillPrice := Some(sellAvg), status := sellStatus)];
      var tradeValue := matchSize * matchPrice / 10000 * QuoteScale(quoteDecimals);
      if tradeValue > 0 {
        totalVolume := totalVolume + tradeValue;
      }
      log := log + [Trade(buy, sell, matchPrice, matchSize)];
    }

    /** One pass of executePendingMatches over the proposals of one outcome; `settled[i]`
        is the answer of the chain to the i-th of them. */
    method ExecutePendingMatches(matches: seq<Proposal>, settled: seq<bool>)
      requires |matches| == |settled|
      modifies this
      ensures Contents() == Pass(old(Contents()), matches, settled, quoteDecimals)
      ensures (forall i :: 0 <= i < |settled| ==> !settled[i]) ==> Contents() == old(Contents())
    {
      for i := 0 to |matches|
        invariant Contents() == Pass(old(Contents()), matches[..i], settled[..i], quoteDecimals)
      {
        assert matches[..i + 1][..i] == matches[..i] && settled[..i + 1][..i] == settled[..i];
        var m := matches[i];
        if m.buy >= |rows| || m.sell >= |rows| {
          continue;
        }
        var freshBuy, freshSell := rows[m.buy], rows[m.sell];
        if freshBuy.status == Filled || freshSell.status == Filled {
          continue;
        }
        var buyRemaining, sellRemaining := Remaining(freshBuy), Remaining(freshSell);
        if buyRemaining <= 0 || sellRemaining <= 0 {
          continue;
        }
        var matchSize := if buyRemaining < sellRemaining then buyRemaining else sellRemaining;
        if settled[i] {
          RecordMatch(m.buy, m.sell, m.price, matchSize);
        }
      }
      assert matches[..|matches|] == matches && settled[..|matches|] == settled;
      if forall i :: 0 <= i < |settled| ==> !settled[i] {
        NothingSettledNothingChanges(old(Contents()), matches, settled, quoteDecimals);
      }
    }
  }

  // ------------------------------------------------------------------- sums over the table

  function Share(o: Order, side: Side, token: Token): nat {
    if o.side == side && TokenOf(o) == token then o.filled else 0
  }

  function SumFilled(t: Table, side: Side, token: Token): nat {
    if t == [] then 0 else SumFilled(t[..|t| - 1], side, token) + Share(t[|t| - 1], side, token)
  }

  lemma {:induction false} SumFilledUpdate(t: Table, i: nat, o: Order, side: Side, token: Token)
    requires i < |t|
    ensures SumFilled(t[i := o], side, token) ==
            SumFilled(t, side, token) - Share(t[i], side, token) + Share(o, side, token)
  {
    var n := |t| - 1;
    if i == n {
      assert t[i := o][..n] == t[..n];
    } else {
      assert t[i := o][..n] == t[..n][i := o];
      SumFilledUpdate(t[..n], i, o, side, token);
    }
  }

  function FillsOf(log: seq<Trade>, id: nat): seq<Fill> {
    if log == [] then []
    else
      var t := log[|log| - 1];
      FillsOf(log[..|log| - 1], id) + if t.buy == id || t.sell == id then [Fill(t.price, t.size)] else []
  }

  function VolumeOf(log: seq<Trade>, quoteDecimals: nat): nat {
    if log == [] then 0
    else
      var t := log[|log| - 1];
      VolumeOf(log[..|log| - 1], quoteDecimals) + TradeValue(t.price, t.size, quoteDecimals)
  }
}
