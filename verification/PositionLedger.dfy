/** Position rows after a recorded fill: the buyer's row grows, the seller's rows are
    drained greedily (backend/src/services/orderKeeperService.ts:1456-1618). */
module PositionLedger {
  import opened Orders
  import opened FillPrice
  import opened Liquidation

  datatype Position = Position(
    id: string,
    user: string,
    outcomeId: nat,
    direction: Direction,
    kind: PositionKind,
    token: Token,
    shares: nat,
    entry: Bps,
    leverage: nat,
    collateral: int,
    borrowed: int,
    isOpen: bool
  )

  type Rows = seq<Position>

  function OpenShares(p: Position): nat {
    if p.isOpen then p.shares else 0
  }

  function TotalOpen(rows: Rows): nat {
    if rows == [] then 0 else TotalOpen(rows[..|rows| - 1]) + OpenShares(rows[|rows| - 1])
  }

  lemma {:induction false} TotalOpenUpdate(rows: Rows, i: nat, p: Position)
    requires i < |rows|
    ensures TotalOpen(rows[i := p]) == TotalOpen(rows) - OpenShares(rows[i]) + OpenShares(p)
  {
    var n := |rows| - 1;
    if i == n {
      assert rows[i := p][..n] == rows[..n];
    } else {
      assert rows[i := p][..n] == rows[..n][i := p];
      TotalOpenUpdate(rows[..n], i, p);
    }
  }

  // ------------------------------------------------------------------------- the buyer

  /** What the keeper knows when it credits the buyer: the row id, the order's owner and
      outcome, the leverage and kind to use for a new row, and the fill itself. */
  datatype Purchase = Purchase(
    id: string,
    user: string,
    outcomeId: nat,
    kind: PositionKind,
    token: Token,
    leverage: nat,
    price: Bps,
    size: nat
  )

  function FindById(rows: Rows, id: string): (r: Option<nat>)
    ensures r.Some? ==> r.value < |rows| && rows[r.value].id == id
    ensures r.None? ==> forall i :: 0 <= i < |rows| ==> rows[i].id != id
  {
    if rows == [] then None
    else if rows[|rows| - 1].id == id then Some(|rows| - 1)
    else FindById(rows[..|rows| - 1], id)
  }

  function OrOne(leverage: nat): (l: nat)
    ensures l >= 1
  {
    if leverage == 0 then 1 else leverage
  }

  function Incremented(p: Position, b: Purchase, quoteDecimals: nat): Position
    requires p.shares > 0 && b.size > 0
  {
    var oldAvg := if p.entry == 0 then b.price else p.entry;
    var newAvg := Fold(oldAvg, p.shares, b.price, b.size);
    var split := SplitOnIncrement(p.shares + b.size, newAvg, OrOne(p.leverage), quoteDecimals);
    p.(shares := p.shares + b.size, entry := newAvg, collateral := split.collateral, borrowed := split.borrowed)
  }

  function Created(b: Purchase, quoteDecimals: nat): Position {
    var split := SplitOnCreate(b.size, b.price, OrOne(b.leverage), quoteDecimals);
    Position(b.id, b.user, b.outcomeId, Long, b.kind, b.token, b.size, b.price, OrOne(b.leverage), split.collateral,
      split.borrowed, true)
  }

  predicate CanIncrement(rows: Rows, id: string) {
    var found := FindById(rows, id);
    found.Some? && rows[found.value].isOpen && rows[found.value].shares > 0
  }

  /** An open row with shares is incremented; any other row of that id is replaced. */
  function Credit(rows: Rows, b: Purchase, quoteDecimals: nat): Rows
    requires b.size > 0
  {
    match FindById(rows, b.id)
    case Some(i) =>
      rows[i := if CanIncrement(rows, b.id) then Incremented(rows[i], b, quoteDecimals) else Created(b, quoteDecimals)]
    case None => rows + [Created(b, quoteDecimals)]
  }

  // ------------------------------------------------------------------------- the seller

  datatype Seller = Seller(user: string, outcomeId: nat, kind: PositionKind, token: Token)

  predicate BelongsTo(p: Position, s: Seller) {
    p.user == s.user && p.outcomeId == s.outcomeId && p.direction.Long? && p.kind == s.kind && p.token == s.token
      && p.isOpen
  }

  /** What the query returns, in whatever order: exactly the seller's open long rows of the
      sold token and kind. */
  ghost predicate IsSellerRows(rows: Rows, s: Seller, ids: seq<nat>) {
    && (forall i :: 0 <= i < |ids| ==> ids[i] < |rows|)
    && (forall i, j :: 0 <= i < j < |ids| ==> ids[i] != ids[j])
    && (forall k :: 0 <= k < |rows| ==> (k in ids <==> BelongsTo(rows[k], s)))
  }

  function Held(rows: Rows, ids: seq<nat>): nat
    requires forall i :: 0 <= i < |ids| ==> ids[i] < |rows|
  {
    if ids == [] then 0 else rows[ids[0]].shares + Held(rows, ids[1..])
  }

  function Reduced(p: Position, reduction: nat): Position
    requires reduction <= p.shares
  {
    if reduction == p.shares then p.(shares := 0, isOpen := false) else p.(shares := p.shares - reduction)
  }

  /** The greedy loop, row by row. */
  function Drain(rows: Rows, ids: seq<nat>, amount: nat): (rows': Rows)
    requires forall i :: 0 <= i < |ids| ==> ids[i] < |rows|
    ensures |rows'| == |rows|
    decreases |ids|
  {
    if ids == [] || amount == 0 then rows
    else if rows[ids[0]].shares == 0 then Drain(rows, ids[1..], amount)
    else
      var reduction := Min(rows[ids[0]].shares, amount);
      Drain(rows[ids[0] := Reduced(rows[ids[0]], reduction)], ids[1..], amount - reduction)
  }

  // ---------------------------------------------------------------------- the operations

  class PositionStore {
    var rows: Rows
    const quoteDecimals: nat

    constructor (quoteDecimals: nat)
      ensures rows == [] && this.quoteDecimals == quoteDecimals
    {
      rows := [];
      this.quoteDecimals := quoteDecimals;
    }

    method CreditBuyer(b: Purchase)
      requires b.size > 0
      modifies this
      ensures rows == Credit(old(rows), b, quoteDecimals)
      ensures |old(rows)| <= |rows| <= |old(rows)| + 1
      ensures forall k :: 0 <= k < |old(rows)| && rows[k] != old(rows)[k] ==> rows[k].id == b.id && rows[k].isOpen
    {
      var existing := FindById(rows, b.id);
      if existing.Some? && rows[existing.value].isOpen && rows[existing.value].shares > 0 {
        var p := rows[existing.value];
        var newShares := p.shares + b.size;
        var oldAvg := if p.entry == 0 then b.price else p.entry;
        var newAvg := Fold(oldAvg, p.shares, b.price, b.size);
        var split := SplitOnIncrement(newShares, newAvg, OrOne(p.leverage), quoteDecimals);
        rows := rows[existing.value :=
          p.(shares := newShares, entry := newAvg, collateral := split.collateral, borrowed := split.borrowed)];
      } else if existing.Some? {
        rows := rows[existing.value := Created(b, quoteDecimals)];
      } else {
        rows := rows + [Created(b, quoteDecimals)];
      }
    }

    /** `sellerPositions` is the answer of the query for this seller. */
    method ReduceSeller(sellerPositions: seq<nat>, matchSize: nat)
      requires forall i :: 0 <= i < |sellerPositions| ==> sellerPositions[i] < |rows|
      modifies this
      ensures rows == Drain(old(rows), sellerPositions, matchSize)
    {
      var remaining := matchSize;
      for i := 0 to |sellerPositions|
        invariant |rows| == |old(rows)|
        invariant Drain(rows, sellerPositions[i..], remaining) == Drain(old(rows), sellerPositions, matchSize)
      {
        assert sellerPositions[i..][1..] == sellerPositions[i + 1..];
        if remaining <= 0 {
          break;
        }
        var id := sellerPositions[i];
        var posShares := rows[id].shares;
        if posShares <= 0 {
          continue;
        }
        var reduction := if posShares < remaining then posShares else remaining;
        var newShares := posShares - reduction;
        remaining := remaining - reduction;
        if newShares <= 0 {
          rows := rows[id := rows[id].(shares := 0, isOpen := false)];
        } else {
          rows := rows[id := rows[id].(shares := newShares)];
        }
      }
    }
  }

  // ------------------------------------------------------------------------ what it means

  /** The buyer's row gains exactly the fill, whether it is incremented, reopened or new;
      every other row is untouched. */
  lemma CreditRaises(rows: Rows, b: Purchase, quoteDecimals: nat)
    requires b.size > 0
    ensures var rows' := Credit(rows, b, quoteDecimals);
            var i := FindById(rows, b.id).GetOr(|rows|);
            && |rows| <= |rows'| && i < |rows'|
            && rows'[i].id == b.id && rows'[i].isOpen
            && OpenShares(rows'[i]) == (if i < |rows| then OpenShares(rows[i]) else 0) + b.size
            && (forall k :: 0 <= k < |rows| && k != i ==> rows'[k] == rows[k])
            && TotalOpen(rows') == TotalOpen(rows) + b.size
  {
    var rows' := Credit(rows, b, quoteDecimals);
    match FindById(rows, b.id)
    case Some(i) => TotalOpenUpdate(rows, i, rows'[i]);
    case None => assert rows'[..|rows|] == rows;
  }

  /** The averaged entry price of an incremented row lies between its two sources; a stored
      entry of zero counts as the price of the fill. */
  lemma IncrementAveragesEntry(p: Position, b: Purchase, quoteDecimals: nat)
    requires p.shares > 0 && b.size > 0
    ensures var oldAvg := if p.entry == 0 then b.price else p.entry;
            Min(oldAvg, b.price) <= Incremented(p, b, quoteDecimals).entry <= Max(oldAvg, b.price)
  {
    var oldAvg := if p.entry == 0 then b.price else p.entry;
    var lo, hi := Min(oldAvg, b.price), Max(oldAvg, b.price);
    MixBracketed(oldAvg, p.shares, b.price, b.size, lo, hi);
    var d := p.shares + b.size;
    var r := RoundDiv(oldAvg * p.shares + b.price * b.size, d);
    MultiplesApart(r, lo, d);
    MultiplesApart(hi, r, d);
  }

  /** Collateral is the row's own notional over its leverage, to the nearest unit and halves
      upwards; nothing is borrowed without leverage. */
  predicate CollateralFits(row: Position, quoteDecimals: nat) {
    var n, d := row.shares * row.entry * QuoteScale(quoteDecimals), 10000 * row.leverage;
    -d < 2 * (row.collateral * d - n) <= d && (row.leverage == 1 ==> row.borrowed == 0)
  }

  /** An incremented row keeps who and what it is and takes the running average as its
      entry; its debt is the rest of its own notional over the leverage. */
  predicate IncrementedFrom(p: Position, b: Purchase, row: Position, quoteDecimals: nat) {
    var oldAvg := if p.entry == 0 then b.price else p.entry;
    var cost := oldAvg * p.shares + b.price * b.size;
    var l := if p.leverage == 0 then 1 else p.leverage;
    var n, d := row.shares * row.entry * QuoteScale(quoteDecimals), 10000 * l;
    && row == p.(shares := row.shares, entry := row.entry, collateral := row.collateral, borrowed := row.borrowed)
    && row.shares == p.shares + b.size
    && 2 * cost - row.shares < 2 * (row.entry * row.shares) <= 2 * cost + row.shares
    && CollateralFits(row.(leverage := l), quoteDecimals)
    && (l > 1 ==> -d < 2 * (row.borrowed * d - (n * l - n)) <= d)
  }

  /** A created row is an open long of the fill at its price; its debt completes the
      rounded notional. */
  predicate CreatedFrom(b: Purchase, row: Position, quoteDecimals: nat) {
    var n := row.shares * row.entry * QuoteScale(quoteDecimals);
    && row.id == b.id && row.user == b.user && row.outcomeId == b.outcomeId && row.direction == Long
    && row.kind == b.kind && row.token == b.token && row.isOpen
    && row.shares == b.size && row.entry == b.price
    && row.leverage == (if b.leverage == 0 then 1 else b.leverage)
    && CollateralFits(row, quoteDecimals)
    && (row.leverage > 1 ==> -10000 < 2 * ((row.collateral + row.borrowed) * 10000 - n) <= 10000)
  }

  lemma IncrementedRow(p: Position, b: Purchase, quoteDecimals: nat)
    requires p.shares > 0 && b.size > 0
    ensures IncrementedFrom(p, b, Incremented(p, b, quoteDecimals), quoteDecimals)
  {
    var row := Incremented(p, b, quoteDecimals);
    IncrementPartsNearest(row.shares, row.entry, OrOne(p.leverage), quoteDecimals);
  }

  /** The credited row, field by field: an open row with shares is incremented, and
      anything else becomes a new long. */
  lemma CreditedRow(rows: Rows, b: Purchase, quoteDecimals: nat)
    requires b.size > 0
    ensures var i, rows' := FindById(rows, b.id).GetOr(|rows|), Credit(rows, b, quoteDecimals);
            i < |rows'| &&
            if i < |rows| && rows[i].isOpen && rows[i].shares > 0 then
              IncrementedFrom(rows[i], b, rows'[i], quoteDecimals)
            else CreatedFrom(b, rows'[i], quoteDecimals)
  {
    if CanIncrement(rows, b.id) {
      IncrementedRow(rows[FindById(rows, b.id).value], b, quoteDecimals);
    } else {
      CreatePartsNearest(b.size, b.price, OrOne(b.leverage), quoteDecimals);
    }
  }

  /** An incremented long of leverage two to nine and at least 45 quote units of notional
      survives its new entry price, whatever was stored with it before. */
  lemma IncrementedLongIsSafe(rows: Rows, b: Purchase, quoteDecimals: nat)
    requires b.size > 0 && quoteDecimals >= 6 && CanIncrement(rows, b.id)
    ensures var i := FindById(rows, b.id).value;
            var row := Credit(rows, b, quoteDecimals)[i];
            row.direction.Long? && 2 <= row.leverage <= 9
              && row.shares * row.entry * QuoteScale(quoteDecimals) >= 45 * 10000 ==>
            row.collateral >= 0
              && !IsLiquidatable(Holding(Long, Leveraged, row.shares, row.entry, row.collateral), row.entry,
                                 quoteDecimals)
  {
    var i := FindById(rows, b.id).value;
    var row := Credit(rows, b, quoteDecimals)[i];
    if row.direction.Long? && 2 <= row.leverage <= 9
       && row.shares * row.entry * QuoteScale(quoteDecimals) >= 45 * 10000 {
      CreditedRow(rows, b, quoteDecimals);
      CollateralAboveTenth(row.collateral, ScaledNotional(row.shares, row.entry, quoteDecimals), row.leverage);
      LongAtEntry(Holding(Long, Leveraged, row.shares, row.entry, row.collateral), quoteDecimals);
    }
  }

  /** A drained row only loses shares; it closes exactly when its last share goes. */
  predicate Drained(p: Position, p': Position) {
    && p'.shares <= p.shares
    && p' == p.(shares := p'.shares, isOpen := p'.isOpen)
    && (p'.isOpen <==> p.isOpen && (p'.shares > 0 || p.shares == 0))
  }

  lemma {:induction false} HeldElsewhere(rows: Rows, ids: seq<nat>, k: nat, p: Position)
    requires k < |rows| && k !in ids
    requires forall i :: 0 <= i < |ids| ==> ids[i] < |rows|
    ensures Held(rows[k := p], ids) == Held(rows, ids)
  {
    if ids != [] {
      assert ids[0] in ids;
      HeldElsewhere(rows, ids[1..], k, p);
    }
  }

  ghost predicate OpenDistinct(rows: Rows, ids: seq<nat>) {
    && (forall i :: 0 <= i < |ids| ==> ids[i] < |rows| && rows[ids[i]].isOpen)
    && (forall i, j :: 0 <= i < j < |ids| ==> ids[i] != ids[j])
  }

  /** One round of the greedy loop. */
  function DrainOne(rows: Rows, k: nat, amount: nat): Rows
    requires k < |rows|
  {
    if rows[k].shares == 0 then rows else rows[k := Reduced(rows[k], Min(rows[k].shares, amount))]
  }

  lemma DrainUnfold(rows: Rows, ids: seq<nat>, amount: nat)
    requires OpenDistinct(rows, ids) && ids != [] && amount > 0
    ensures OpenDistinct(DrainOne(rows, ids[0], amount), ids[1..]) && ids[0] !in ids[1..]
    ensures Drain(rows, ids, amount) ==
            Drain(DrainOne(rows, ids[0], amount), ids[1..], amount - Min(rows[ids[0]].shares, amount))
  {
    var rest := ids[1..];
    assert forall i :: 0 <= i < |rest| ==> rest[i] == ids[i + 1];
  }

  /** One round lowers what the first row holds, what all rows hold, and nothing else. */
  lemma DrainOneLowers(rows: Rows, ids: seq<nat>, amount: nat)
    requires OpenDistinct(rows, ids) && ids != [] && amount > 0
    ensures var rows1, reduction := DrainOne(rows, ids[0], amount), Min(rows[ids[0]].shares, amount);
            && rows1[ids[0]].shares == rows[ids[0]].shares - reduction
            && Held(rows1, ids[1..]) == Held(rows, ids[1..])
            && TotalOpen(rows1) == TotalOpen(rows) - reduction
  {
    var k := ids[0];
    var rows1 := DrainOne(rows, k, amount);
    DrainUnfold(rows, ids, amount);
    assert rows[k := rows1[k]] == rows1;
    TotalOpenUpdate(rows, k, rows1[k]);
    HeldElsewhere(rows, ids[1..], k, rows1[k]);
  }

  /** The seller's rows lose exactly the smaller of the fill and what they hold. */
  lemma {:induction false} DrainLowers(rows: Rows, ids: seq<nat>, amount: nat)
    requires OpenDistinct(rows, ids)
    ensures Held(Drain(rows, ids, amount), ids) == Held(rows, ids) - Min(amount, Held(rows, ids))
    ensures TotalOpen(Drain(rows, ids, amount)) == TotalOpen(rows) - Min(amount, Held(rows, ids))
    decreases |ids|
  {
    if ids != [] && amount > 0 {
      var rows1 := DrainOne(rows, ids[0], amount);
      var reduction := Min(rows[ids[0]].shares, amount);
      DrainOneLowers(rows, ids, amount);
      DrainUnfold(rows, ids, amount);
      DrainLowers(rows1, ids[1..], amount - reduction);
      assert Drain(rows, ids, amount)[ids[0]] == rows1[ids[0]] by {
        DrainRows(rows1, ids[1..], amount - reduction);
      }
    }
  }

  /** No row goes below zero, a row closes exactly when it is emptied, and no row outside
      the list is touched. */
  lemma {:induction false} DrainRows(rows: Rows, ids: seq<nat>, amount: nat)
    requires OpenDistinct(rows, ids)
    ensures forall k :: 0 <= k < |rows| ==>
              if k in ids then Drained(rows[k], Drain(rows, ids, amount)[k]) else Drain(rows, ids, amount)[k] == rows[k]
    decreases |ids|
  {
    if ids != [] && amount > 0 {
      DrainUnfold(rows, ids, amount);
      DrainRows(DrainOne(rows, ids[0], amount), ids[1..], amount - Min(rows[ids[0]].shares, amount));
    }
  }

  /** The rows are emptied in the order of the query: one that loses shares has only empty
      rows before it. */
  lemma {:induction false} DrainIsGreedy(rows: Rows, ids: seq<nat>, amount: nat, i: nat, j: nat)
    requires OpenDistinct(rows, ids) && i < j < |ids|
    ensures Drain(rows, ids, amount)[ids[j]].shares < rows[ids[j]].shares ==>
            Drain(rows, ids, amount)[ids[i]].shares == 0
    decreases |ids|
  {
    if amount > 0 {
      var rows1, reduction := DrainOne(rows, ids[0], amount), Min(rows[ids[0]].shares, amount);
      DrainUnfold(rows, ids, amount);
      DrainRows(rows1, ids[1..], amount - reduction);
      if i > 0 {
        DrainIsGreedy(rows1, ids[1..], amount - reduction, i - 1, j - 1);
      }
    }
  }

  /** Crediting the buyer and draining the seller: the total of open shares changes by what
      the seller could not cover, so it is constant exactly when the rows cover the fill. */
  lemma FillConservesShares(rows: Rows, b: Purchase, s: Seller, ids: seq<nat>, quoteDecimals: nat)
    requires b.size > 0 && IsSellerRows(Credit(rows, b, quoteDecimals), s, ids)
    ensures var mid := Credit(rows, b, quoteDecimals);
            && TotalOpen(Drain(mid, ids, b.size)) == TotalOpen(rows) + b.size - Min(b.size, Held(mid, ids))
            && (TotalOpen(Drain(mid, ids, b.size)) == TotalOpen(rows) <==> Held(mid, ids) >= b.size)
  {
    var mid := Credit(rows, b, quoteDecimals);
    CreditRaises(rows, b, quoteDecimals);
    assert OpenDistinct(mid, ids) by {
      forall i | 0 <= i < |ids|
        ensures mid[ids[i]].isOpen
      {
        assert ids[i] in ids;
      }
    }
    DrainLowers(mid, ids, b.size);
  }

  /** Selling touches no short or closed row, and no row of another user, outcome, token or
      kind. */
  lemma OthersUntouched(rows: Rows, s: Seller, ids: seq<nat>, amount: nat, k: nat)
    requires IsSellerRows(rows, s, ids) && k < |rows|
    requires rows[k].user != s.user || rows[k].outcomeId != s.outcomeId || rows[k].direction.Short?
             || rows[k].kind != s.kind || rows[k].token != s.token || !rows[k].isOpen
    ensures Drain(rows, ids, amount)[k] == rows[k]
  {
    assert OpenDistinct(rows, ids) by {
      forall i | 0 <= i < |ids|
        ensures rows[ids[i]].isOpen
      {
        assert ids[i] in ids;
      }
    }
    DrainRows(rows, ids, amount);
  }
}
