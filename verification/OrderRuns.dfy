/** Every sequential run of placing, proposing, filling and cancelling keeps the order
    table, the volume counter and the trade log in agreement. */
module OrderRuns {
  import opened Orders
  import opened Matching
  import opened FillPrice
  import opened OrderLedger

  /** A proposal may be filled long after the pass that made it, whatever was placed,
      filled or cancelled in between. */
  datatype World = World(book: Book, proposed: set<Proposal>)

  datatype Op =
    | PlaceOp(ticket: Ticket)
    | ProposeOp(buys: seq<nat>, sells: seq<nat>)
    | FillOp(m: Proposal)
    | CancelOp(id: nat, user: Option<string>)

  ghost function Step(w: World, op: Op, quoteDecimals: nat): World {
    match op
    case PlaceOp(k) => w.(book := Place(w.book, k))
    case ProposeOp(buys, sells) =>
      if IsQueue(w.book.rows, Buy, buys) && IsQueue(w.book.rows, Sell, sells) then
        w.(proposed := w.proposed + set m | m in Proposals(w.book.rows, buys, sells))
      else w
    case FillOp(m) =>
      if m in w.proposed then w.(book := Attempt(w.book, m, true, quoteDecimals)) else w
    case CancelOp(id, user) => w.(book := Cancel(w.book, id, user))
  }

  const EMPTY_WORLD := World(Book([], 0, []), {})

  ghost function Run(ops: seq<Op>, quoteDecimals: nat): World {
    if ops == [] then EMPTY_WORLD
    else Step(Run(ops[..|ops| - 1], quoteDecimals), ops[|ops| - 1], quoteDecimals)
  }

  // ---------------------------------------------------------------------- the invariant

  /** A row agrees with the fills recorded for it. */
  ghost predicate RowAgrees(o: Order, fills: seq<Fill>) {
    && AllPositive(fills)
    && o.filled == Quantity(fills)
    && o.filled <= o.size
    && o.avgFillPrice == (if fills == [] then None else Some(StoredAverage(fills)))
    && StatusAgrees(o)
  }

  /** Unless it was cancelled, an order's status is decided by how much of it is filled. */
  predicate StatusAgrees(o: Order) {
    match o.status
    case Filled => o.filled == o.size
    case PartiallyFilled => 0 < o.filled < o.size
    case Open => 0 == o.filled < o.size
    case Cancelled => o.filled < o.size
    case Pending => false
  }

  /** A proposal or trade between two rows that the crossing rule allows at this price. */
  predicate PairAgrees(rows: Table, buy: nat, sell: nat, price: Bps) {
    && buy < |rows| && sell < |rows|
    && rows[buy].side.Buy? && rows[sell].side.Sell?
    && TokenOf(rows[buy]) == TokenOf(rows[sell])
    && CrossPrice(rows[buy], rows[sell]) == Some(price)
  }

  ghost predicate RowsAgree(bk: Book) {
    forall i :: 0 <= i < |bk.rows| ==> RowAgrees(bk.rows[i], FillsOf(bk.log, i))
  }

  ghost predicate TradesAgree(rows: Table, log: seq<Trade>) {
    forall t :: t in log ==> t.size > 0 && PairAgrees(rows, t.buy, t.sell, t.price)
  }

  ghost predicate ProposalsAgree(rows: Table, proposed: set<Proposal>) {
    forall m :: m in proposed ==> PairAgrees(rows, m.buy, m.sell, m.price)
  }

  /** What buyers received is what sellers delivered, for YES and for NO shares. */
  ghost predicate SidesBalance(rows: Table) {
    forall token :: SumFilled(rows, Buy, token) == SumFilled(rows, Sell, token)
  }

  ghost predicate Inv(w: World, quoteDecimals: nat) {
    && RowsAgree(w.book)
    && TradesAgree(w.book.rows, w.book.log)
    && ProposalsAgree(w.book.rows, w.proposed)
    && w.book.volume == VolumeOf(w.book.log, quoteDecimals)
    && SidesBalance(w.book.rows)
  }

  /** Rows are only appended, and the terms of an order never change. */
  ghost predicate SameTerms(rows: Table, rows': Table) {
    && |rows| <= |rows'|
    && forall i :: 0 <= i < |rows| ==>
         var o, o' := rows[i], rows'[i];
         o.side == o'.side && o.kind == o'.kind && o.price == o'.price && o.size == o'.size && TokenOf(o) == TokenOf(o')
  }

  lemma PairsKept(rows: Table, rows': Table, log: seq<Trade>, proposed: set<Proposal>)
    requires SameTerms(rows, rows') && TradesAgree(rows, log) && ProposalsAgree(rows, proposed)
    ensures TradesAgree(rows', log) && ProposalsAgree(rows', proposed)
  {
    forall buy, sell, price | PairAgrees(rows, buy, sell, price)
      ensures PairAgrees(rows', buy, sell, price)
    {
      PairKept(rows, rows', buy, sell, price);
    }
  }

  lemma PairKept(rows: Table, rows': Table, buy: nat, sell: nat, price: Bps)
    requires SameTerms(rows, rows') && PairAgrees(rows, buy, sell, price)
    ensures PairAgrees(rows', buy, sell, price)
  {
  }

  // -------------------------------------------------------------------- steps keep it

  lemma {:induction false} NoFillsBeyond(log: seq<Trade>, id: nat)
    requires forall t :: t in log ==> t.buy < id && t.sell < id
    ensures FillsOf(log, id) == []
  {
    if log != [] {
      NoFillsBeyond(log[..|log| - 1], id);
      assert log[|log| - 1] in log;
    }
  }

  lemma PlaceKeepsRows(bk: Book, k: Ticket)
    requires RowsAgree(bk) && TradesAgree(bk.rows, bk.log)
    ensures RowsAgree(Place(bk, k))
  {
    var bk' := Place(bk, k);
    forall i | 0 <= i < |bk'.rows|
      ensures RowAgrees(bk'.rows[i], FillsOf(bk'.log, i))
    {
      if i < |bk.rows| {
        assert RowAgrees(bk.rows[i], FillsOf(bk.log, i));
      } else {
        NoFillsBeyond(bk.log, i);
      }
    }
  }

  lemma PlaceKeepsSides(bk: Book, k: Ticket)
    requires SidesBalance(bk.rows)
    ensures SidesBalance(Place(bk, k).rows)
  {
    var rows' := Place(bk, k).rows;
    if k.price != 0 {
      assert rows'[..|bk.rows|] == bk.rows;
      assert forall side, token :: SumFilled(rows', side, token) == SumFilled(bk.rows, side, token);
    }
  }

  lemma PlaceKeepsInv(w: World, k: Ticket, quoteDecimals: nat)
    requires Inv(w, quoteDecimals)
    ensures Inv(Step(w, PlaceOp(k), quoteDecimals), quoteDecimals)
  {
    PlaceKeepsRows(w.book, k);
    PlaceKeepsSides(w.book, k);
    PairsKept(w.book.rows, Place(w.book, k).rows, w.book.log, w.proposed);
  }

  lemma ProposeKeepsInv(w: World, buys: seq<nat>, sells: seq<nat>, quoteDecimals: nat)
    requires Inv(w, quoteDecimals)
    ensures Inv(Step(w, ProposeOp(buys, sells), quoteDecimals), quoteDecimals)
  {
    var rows := w.book.rows;
    if IsQueue(rows, Buy, buys) && IsQueue(rows, Sell, sells) {
      ProposalsExact(rows, buys, sells);
      forall m | m in Proposals(rows, buys, sells)
        ensures PairAgrees(rows, m.buy, m.sell, m.price)
      {
        assert m.buy in buys && m.sell in sells;
        assert m.sell < |rows|;
      }
    }
  }

  lemma CancelKeepsRows(bk: Book, id: nat, user: Option<string>)
    requires RowsAgree(bk)
    ensures RowsAgree(Cancel(bk, id, user))
  {
    var bk' := Cancel(bk, id, user);
    forall i | 0 <= i < |bk'.rows|
      ensures RowAgrees(bk'.rows[i], FillsOf(bk'.log, i))
    {
      assert RowAgrees(bk.rows[i], FillsOf(bk.log, i));
    }
  }

  lemma CancelKeepsSides(bk: Book, id: nat, user: Option<string>)
    requires SidesBalance(bk.rows)
    ensures SidesBalance(Cancel(bk, id, user).rows)
  {
    if CanCancel(bk.rows, id, user) {
      forall side, token
        ensures SumFilled(Cancel(bk, id, user).rows, side, token) == SumFilled(bk.rows, side, token)
      {
        SumFilledUpdate(bk.rows, id, bk.rows[id].(status := Cancelled), side, token);
      }
    }
  }

  lemma CancelKeepsInv(w: World, id: nat, user: Option<string>, quoteDecimals: nat)
    requires Inv(w, quoteDecimals)
    ensures Inv(Step(w, CancelOp(id, user), quoteDecimals), quoteDecimals)
  {
    CancelKeepsRows(w.book, id, user);
    CancelKeepsSides(w.book, id, user);
    PairsKept(w.book.rows, Cancel(w.book, id, user).rows, w.book.log, w.proposed);
  }

  /** Filling one row appends to its fills and keeps the row in agreement with them. */
  lemma FillOrderAgrees(o: Order, fills: seq<Fill>, price: Bps, size: nat)
    requires RowAgrees(o, fills) && 0 < size <= Remaining(o)
    ensures RowAgrees(FillOrder(o, price, size), fills + [Fill(price, size)])
  {
    var fills' := fills + [Fill(price, size)];
    assert fills'[..|fills|] == fills;
    QuantityPositive(fills);
  }

  lemma FillKeepsSides(bk: Book, t: Trade, quoteDecimals: nat)
    requires SidesBalance(bk.rows) && PairAgrees(bk.rows, t.buy, t.sell, t.price) && t.size > 0
    ensures SidesBalance(RecordFill(bk, t, quoteDecimals).rows)
  {
    var b, s := FillOrder(bk.rows[t.buy], t.price, t.size), FillOrder(bk.rows[t.sell], t.price, t.size);
    var rows1 := bk.rows[t.buy := b];
    var rows' := rows1[t.sell := s];
    forall token
      ensures SumFilled(rows', Buy, token) == SumFilled(rows', Sell, token)
    {
      SumFilledUpdate(bk.rows, t.buy, b, Buy, token);
      SumFilledUpdate(bk.rows, t.buy, b, Sell, token);
      SumFilledUpdate(rows1, t.sell, s, Buy, token);
      SumFilledUpdate(rows1, t.sell, s, Sell, token);
    }
  }

  lemma FillsOfAppend(log: seq<Trade>, t: Trade, id: nat)
    ensures FillsOf(log + [t], id) ==
            FillsOf(log, id) + if t.buy == id || t.sell == id then [Fill(t.price, t.size)] else []
  {
    assert (log + [t])[..|log|] == log;
  }

  lemma FillKeepsRows(bk: Book, t: Trade, quoteDecimals: nat)
    requires RowsAgree(bk) && PairAgrees(bk.rows, t.buy, t.sell, t.price)
    requires 0 < t.size <= Remaining(bk.rows[t.buy]) && t.size <= Remaining(bk.rows[t.sell])
    ensures RowsAgree(RecordFill(bk, t, quoteDecimals))
  {
    var bk' := RecordFill(bk, t, quoteDecimals);
    forall i | 0 <= i < |bk'.rows|
      ensures RowAgrees(bk'.rows[i], FillsOf(bk'.log, i))
    {
      var o, fills := bk.rows[i], FillsOf(bk.log, i);
      assert RowAgrees(o, fills);
      FillsOfAppend(bk.log, t, i);
      if i == t.buy || i == t.sell {
        FillOrderAgrees(o, fills, t.price, t.size);
        assert bk'.rows[i] == FillOrder(o, t.price, t.size);
      } else {
        assert bk'.rows[i] == o && FillsOf(bk'.log, i) == fills;
      }
    }
  }

  lemma FillKeepsPairs(bk: Book, proposed: set<Proposal>, t: Trade, quoteDecimals: nat)
    requires TradesAgree(bk.rows, bk.log) && ProposalsAgree(bk.rows, proposed)
    requires PairAgrees(bk.rows, t.buy, t.sell, t.price) && t.size > 0
    ensures var bk' := RecordFill(bk, t, quoteDecimals);
            TradesAgree(bk'.rows, bk'.log) && ProposalsAgree(bk'.rows, proposed)
  {
    var bk' := RecordFill(bk, t, quoteDecimals);
    PairsKept(bk.rows, bk'.rows, bk.log, proposed);
    PairKept(bk.rows, bk'.rows, t.buy, t.sell, t.price);
  }

  lemma VolumeAppend(log: seq<Trade>, t: Trade, quoteDecimals: nat)
    ensures VolumeOf(log + [t], quoteDecimals) ==
            VolumeOf(log, quoteDecimals) + TradeValue(t.price, t.size, quoteDecimals)
  {
    assert (log + [t])[..|log|] == log;
  }

  lemma FillKeepsInv(w: World, m: Proposal, quoteDecimals: nat)
    requires Inv(w, quoteDecimals)
    ensures Inv(Step(w, FillOp(m), quoteDecimals), quoteDecimals)
  {
    var bk := w.book;
    if m in w.proposed && StillFillable(bk.rows, m) {
      var t := Trade(m.buy, m.sell, m.price, Min(Remaining(bk.rows[m.buy]), Remaining(bk.rows[m.sell])));
      assert PairAgrees(bk.rows, m.buy, m.sell, m.price);
      FillKeepsPairs(bk, w.proposed, t, quoteDecimals);
      FillKeepsRows(bk, t, quoteDecimals);
      FillKeepsSides(bk, t, quoteDecimals);
      VolumeAppend(bk.log, t, quoteDecimals);
    }
  }

  lemma StepKeepsInv(w: World, op: Op, quoteDecimals: nat)
    requires Inv(w, quoteDecimals)
    ensures Inv(Step(w, op, quoteDecimals), quoteDecimals)
  {
    match op
    case PlaceOp(k) => PlaceKeepsInv(w, k, quoteDecimals);
    case ProposeOp(buys, sells) => ProposeKeepsInv(w, buys, sells, quoteDecimals);
    case FillOp(m) => FillKeepsInv(w, m, quoteDecimals);
    case CancelOp(id, user) => CancelKeepsInv(w, id, user, quoteDecimals);
  }

  /** The ledger theorem: after any run of any operations, the table, the counter and the
      log agree. */
  lemma {:induction false} RunsKeepInv(ops: seq<Op>, quoteDecimals: nat)
    ensures Inv(Run(ops, quoteDecimals), quoteDecimals)
  {
    if ops != [] {
      RunsKeepInv(ops[..|ops| - 1], quoteDecimals);
      StepKeepsInv(Run(ops[..|ops| - 1], quoteDecimals), ops[|ops| - 1], quoteDecimals);
    }
  }

  /** In every run, a trade with a limit order on either side was priced within what both
      parties accept, market orders allowing five per cent. */
  lemma TradesAreAcceptable(ops: seq<Op>, quoteDecimals: nat, t: Trade)
    requires t in Run(ops, quoteDecimals).book.log
    ensures var rows := Run(ops, quoteDecimals).book.rows;
            && t.buy < |rows| && t.sell < |rows|
            && (rows[t.buy].kind.LimitOrder? || rows[t.sell].kind.LimitOrder? ==>
                  BuyerAccepts(rows[t.buy], t.price) && SellerAccepts(rows[t.sell], t.price))
  {
    RunsKeepInv(ops, quoteDecimals);
    var rows := Run(ops, quoteDecimals).book.rows;
    assert PairAgrees(rows, t.buy, t.sell, t.price);
    if rows[t.buy].kind.LimitOrder? || rows[t.sell].kind.LimitOrder? {
      CrossesExactlyWhenAcceptable(rows[t.buy], rows[t.sell]);
    }
  }

  /** Every price at which the order traded lies between `lo` and `hi`. */
  ghost predicate TradedBetween(log: seq<Trade>, id: nat, lo: nat, hi: nat) {
    forall t :: t in log && (t.buy == id || t.sell == id) ==> lo <= t.price <= hi
  }

  lemma {:induction false} FillsBetween(log: seq<Trade>, id: nat, lo: nat, hi: nat)
    requires TradedBetween(log, id, lo, hi)
    ensures forall i :: 0 <= i < |FillsOf(log, id)| ==> lo <= FillsOf(log, id)[i].price <= hi
  {
    if log != [] {
      var n := |log| - 1;
      FillsBetween(log[..n], id, lo, hi);
      assert log[n] in log;
      assert log == log[..n] + [log[n]];
      FillsOfAppend(log[..n], log[n], id);
    }
  }

  /** In every run, the stored average of an order lies between the cheapest and the
      dearest of its trades, and within half a basis point per trade after the first of
      their volume-weighted mean. */
  lemma AveragesAreFaithful(ops: seq<Op>, quoteDecimals: nat, id: nat, lo: nat, hi: nat)
    requires id < |Run(ops, quoteDecimals).book.rows| && Run(ops, quoteDecimals).book.rows[id].filled > 0
    requires TradedBetween(Run(ops, quoteDecimals).book.log, id, lo, hi)
    ensures var avg := Run(ops, quoteDecimals).book.rows[id].avgFillPrice;
            && avg.Some? && lo <= avg.value <= hi
            && NearMean(avg.value, FillsOf(Run(ops, quoteDecimals).book.log, id))
  {
    RunsKeepInv(ops, quoteDecimals);
    var bk := Run(ops, quoteDecimals).book;
    var fills := FillsOf(bk.log, id);
    assert RowAgrees(bk.rows[id], fills);
    QuantityPositive(fills);
    FillsBetween(bk.log, id, lo, hi);
    AverageBetween(fills, lo, hi);
    AverageNearMean(fills);
  }

  /** In every run, an order in an open status has something left to fill. */
  lemma OpenMeansLive(ops: seq<Op>, quoteDecimals: nat, id: nat)
    requires id < |Run(ops, quoteDecimals).book.rows|
    ensures var o := Run(ops, quoteDecimals).book.rows[id]; IsOpenStatus(o.status) <==> Live(o)
  {
    RunsKeepInv(ops, quoteDecimals);
    var bk := Run(ops, quoteDecimals).book;
    assert RowAgrees(bk.rows[id], FillsOf(bk.log, id));
  }

  // ---------------------------------------------------------------- cancelled orders

  predicate Names(m: Proposal, id: nat) {
    m.buy == id || m.sell == id
  }

  /** A cancelled row changes exactly when a proposal that names it was made before, is
      still outstanding and passes the keeper's re-read, which rejects filled orders only. */
  lemma CancelledRowChangesExactly(w: World, op: Op, id: nat, quoteDecimals: nat)
    requires id < |w.book.rows| && w.book.rows[id].status.Cancelled?
    ensures var rows' := Step(w, op, quoteDecimals).book.rows;
            && id < |rows'|
            && (rows'[id] != w.book.rows[id] <==>
                op.FillOp? && op.m in w.proposed && StillFillable(w.book.rows, op.m) && Names(op.m, id))
  {
  }

  ghost predicate CancelledAndUnnamed(w: World, id: nat) {
    id < |w.book.rows| && w.book.rows[id].status.Cancelled? && forall m :: m in w.proposed ==> !Names(m, id)
  }

  lemma StepKeepsUnnamed(w: World, op: Op, id: nat, quoteDecimals: nat)
    requires CancelledAndUnnamed(w, id)
    ensures CancelledAndUnnamed(Step(w, op, quoteDecimals), id)
    ensures Step(w, op, quoteDecimals).book.rows[id] == w.book.rows[id]
  {
    CancelledRowChangesExactly(w, op, id, quoteDecimals);
    if op.ProposeOp? && IsQueue(w.book.rows, Buy, op.buys) && IsQueue(w.book.rows, Sell, op.sells) {
      ProposalsExact(w.book.rows, op.buys, op.sells);
      forall m | m in Proposals(w.book.rows, op.buys, op.sells)
        ensures !Names(m, id)
      {
        assert m.buy in op.buys && m.sell in op.sells;
      }
    }
  }

  /** A cancelled order that no outstanding proposal names is out of the game: whatever
      follows, its row stays as it is. */
  lemma {:induction false} UnnamedStaysCancelled(ops: seq<Op>, more: seq<Op>, id: nat, quoteDecimals: nat)
    requires CancelledAndUnnamed(Run(ops, quoteDecimals), id)
    ensures CancelledAndUnnamed(Run(ops + more, quoteDecimals), id)
    ensures Run(ops + more, quoteDecimals).book.rows[id] == Run(ops, quoteDecimals).book.rows[id]
  {
    if more == [] {
      assert ops + more == ops;
    } else {
      var n := |more| - 1;
      UnnamedStaysCancelled(ops, more[..n], id, quoteDecimals);
      ConcatInit(ops, more);
      StepKeepsUnnamed(Run(ops + more[..n], quoteDecimals), more[n], id, quoteDecimals);
    }
  }

  const BID := Ticket(Buy, LimitOrder, 6000, 5, Some(Yes), "alice", 0)
  const ASK := Ticket(Sell, LimitOrder, 5000, 5, Some(Yes), "bob", 1)
  const MATCH := Proposal(0, 1, 5000, 5)

  const RESTING: Table := [NewOrder(BID), NewOrder(ASK)]

  lemma RunOfLonger(ops: seq<Op>, op: Op, quoteDecimals: nat)
    ensures Run(ops + [op], quoteDecimals) == Step(Run(ops, quoteDecimals), op, quoteDecimals)
  {
    AppendInit(ops, op);
  }

  lemma OnePlaced(k: Ticket, quoteDecimals: nat)
    requires k.price != 0
    ensures Run([PlaceOp(k)], quoteDecimals) == World(Book([NewOrder(k)], 0, []), {})
  {
    assert [PlaceOp(k)][..0] == [];
    assert [] + [NewOrder(k)] == [NewOrder(k)];
  }

  lemma TwoPlaced(j: Ticket, k: Ticket, quoteDecimals: nat)
    requires j.price != 0 && k.price != 0
    ensures Run([PlaceOp(j), PlaceOp(k)], quoteDecimals) == World(Book([NewOrder(j), NewOrder(k)], 0, []), {})
  {
    OnePlaced(j, quoteDecimals);
    assert [PlaceOp(j), PlaceOp(k)][..1] == [PlaceOp(j)];
    assert [NewOrder(j)] + [NewOrder(k)] == [NewOrder(j), NewOrder(k)];
  }

  lemma PairIsProposed()
    ensures IsQueue(RESTING, Buy, [0]) && IsQueue(RESTING, Sell, [1]) && Proposals(RESTING, [0], [1]) == [MATCH]
  {
    assert [0][..0] == [];
    assert FirstCrossing(RESTING, 0, [1]) == 0;
  }

  /** The other case is reached: placed, proposed, cancelled, and filled all the same. */
  lemma CancelledOrderCanStillFill(quoteDecimals: nat) returns (ops: seq<Op>)
    ensures var before := Run(ops, quoteDecimals).book.rows;
            var after := Run(ops + [FillOp(MATCH)], quoteDecimals).book.rows;
            && ops == [PlaceOp(BID), PlaceOp(ASK), ProposeOp([0], [1]), CancelOp(0, None)]
            && |before| == |after| == 2
            && before[0].status == Cancelled && after[0].status == Filled && after[0].filled == 5
  {
    var placed := [PlaceOp(BID), PlaceOp(ASK)];
    TwoPlaced(BID, ASK, quoteDecimals);
    PairIsProposed();
    RunOfLonger(placed, ProposeOp([0], [1]), quoteDecimals);
    RunOfLonger(placed + [ProposeOp([0], [1])], CancelOp(0, None), quoteDecimals);
    ops := placed + [ProposeOp([0], [1])] + [CancelOp(0, None)];
    var cancelled := RESTING[0 := NewOrder(BID).(status := Cancelled)];
    assert Run(placed + [ProposeOp([0], [1])], quoteDecimals) == World(Book(RESTING, 0, []), {MATCH});
    assert Run(ops, quoteDecimals) == World(Book(cancelled, 0, []), {MATCH});
    assert StillFillable(cancelled, MATCH);
    RunOfLonger(ops, FillOp(MATCH), quoteDecimals);
  }

  // -------------------------------------------------------------------- positive prices

  ghost predicate PricesPositive(rows: Table) {
    forall i :: 0 <= i < |rows| ==> rows[i].price > 0
  }

  /** In every run all orders have a positive price. */
  lemma {:induction false} RunsKeepPrices(ops: seq<Op>, quoteDecimals: nat)
    ensures PricesPositive(Run(ops, quoteDecimals).book.rows)
  {
    if ops != [] {
      RunsKeepPrices(ops[..|ops| - 1], quoteDecimals);
    }
  }
}
