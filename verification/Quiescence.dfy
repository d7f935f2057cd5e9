/** Repeating the matching pass empties the book of crossing pairs
    (backend/src/services/orderBookService.ts:190-294 driven by
    backend/src/services/orderKeeperService.ts:275-297). */
module Quiescence {
  import opened Orders
  import opened Matching
  import opened FillPrice
  import opened OrderLedger

  ghost function LiveIds(t: Table): set<nat> {
    set i: nat | i < |t| && Live(t[i])
  }

  function AllTrue(n: nat): seq<bool> {
    seq(n, _ => true)
  }

  /** One pass over freshly fetched queues in which every settlement lands. */
  ghost predicate PassStep(a: Book, b: Book, quoteDecimals: nat) {
    exists buys, sells ::
      && IsQueue(a.rows, Buy, buys) && IsQueue(a.rows, Sell, sells)
      && var ms := Proposals(a.rows, buys, sells);
         b == Pass(a, ms, AllTrue(|ms|), quoteDecimals)
  }

  /** None of the proposed orders has been cancelled meanwhile. */
  ghost predicate Uncancelled(t: Table, ms: seq<Proposal>) {
    forall m :: m in ms ==> m.buy < |t| && m.sell < |t| && !t[m.buy].status.Cancelled? && !t[m.sell].status.Cancelled?
  }

  /** An attempt brings no order to life, and kills one if it fills. */
  lemma AttemptShrinks(bk: Book, m: Proposal, settled: bool, quoteDecimals: nat)
    requires Uncancelled(bk.rows, [m])
    ensures var bk' := Attempt(bk, m, settled, quoteDecimals);
            && |bk'.rows| == |bk.rows|
            && LiveIds(bk'.rows) <= LiveIds(bk.rows)
            && (settled && StillFillable(bk.rows, m) ==> LiveIds(bk'.rows) < LiveIds(bk.rows))
            && (forall i :: 0 <= i < |bk.rows| && bk'.rows[i].status.Cancelled? ==> bk.rows[i].status.Cancelled?)
  {
    assert m in [m];
    var bk' := Attempt(bk, m, settled, quoteDecimals);
    if settled && StillFillable(bk.rows, m) {
      var size := Min(Remaining(bk.rows[m.buy]), Remaining(bk.rows[m.sell]));
      assert bk'.rows[m.sell] == FillOrder(bk.rows[m.sell], m.price, size);
      var done := if size == Remaining(bk.rows[m.sell]) then m.sell else m.buy;
      assert done in LiveIds(bk.rows) && done !in LiveIds(bk'.rows);
    }
  }

  lemma {:induction false} PassShrinks(bk: Book, ms: seq<Proposal>, settled: seq<bool>, quoteDecimals: nat)
    requires |ms| == |settled| && Uncancelled(bk.rows, ms)
    ensures var bk' := Pass(bk, ms, settled, quoteDecimals);
            && |bk'.rows| == |bk.rows|
            && LiveIds(bk'.rows) <= LiveIds(bk.rows)
            && (ms != [] && settled[0] && StillFillable(bk.rows, ms[0]) ==> LiveIds(bk'.rows) < LiveIds(bk.rows))
            && (forall i :: 0 <= i < |bk.rows| && bk'.rows[i].status.Cancelled? ==> bk.rows[i].status.Cancelled?)
  {
    if ms != [] {
      var n := |ms| - 1;
      var mid := Pass(bk, ms[..n], settled[..n], quoteDecimals);
      PassShrinks(bk, ms[..n], settled[..n], quoteDecimals);
      assert ms[n] in ms;
      AttemptShrinks(mid, ms[n], settled[n], quoteDecimals);
    }
  }

  lemma ProposedAreLive(t: Table, buys: seq<nat>, sells: seq<nat>)
    requires IsQueue(t, Buy, buys) && IsQueue(t, Sell, sells)
    ensures forall m :: m in Proposals(t, buys, sells) ==>
              m.buy < |t| && m.sell < |t| && Live(t[m.buy]) && Live(t[m.sell])
  {
    ProposalsExact(t, buys, sells);
    forall m | m in Proposals(t, buys, sells)
      ensures m.buy < |t| && m.sell < |t| && Live(t[m.buy]) && Live(t[m.sell])
    {
      assert IsFirstAnswer(t, m, sells);
      assert m.sell in sells;
    }
  }

  lemma ProposedAreFillable(t: Table, buys: seq<nat>, sells: seq<nat>)
    requires IsQueue(t, Buy, buys) && IsQueue(t, Sell, sells)
    ensures var ms := Proposals(t, buys, sells);
            Uncancelled(t, ms) && (ms != [] ==> StillFillable(t, ms[0]))
  {
    ProposedAreLive(t, buys, sells);
    var ms := Proposals(t, buys, sells);
    if ms != [] {
      assert ms[0] in ms;
    }
  }

  /** A pass completes at least one order unless the book is already quiet. */
  lemma PassProgress(a: Book, b: Book, quoteDecimals: nat)
    requires PassStep(a, b, quoteDecimals)
    ensures if Quiet(a.rows) then b == a else LiveIds(b.rows) < LiveIds(a.rows)
  {
    var buys, sells :| && IsQueue(a.rows, Buy, buys) && IsQueue(a.rows, Sell, sells)
      && var ms := Proposals(a.rows, buys, sells);
         b == Pass(a, ms, AllTrue(|ms|), quoteDecimals);
    PassFromQueues(a, buys, sells, quoteDecimals);
  }

  lemma PassFromQueues(a: Book, buys: seq<nat>, sells: seq<nat>, quoteDecimals: nat)
    requires IsQueue(a.rows, Buy, buys) && IsQueue(a.rows, Sell, sells)
    ensures var ms := Proposals(a.rows, buys, sells);
            var b := Pass(a, ms, AllTrue(|ms|), quoteDecimals);
            if Quiet(a.rows) then b == a else LiveIds(b.rows) < LiveIds(a.rows)
  {
    EmptyPassIffQuiet(a.rows, buys, sells);
    ProposedAreFillable(a.rows, buys, sells);
    PassShrinks(a, Proposals(a.rows, buys, sells), AllTrue(|Proposals(a.rows, buys, sells)|), quoteDecimals);
  }

  lemma {:induction false} SubsetCardinality(s: set<nat>, t: set<nat>)
    requires s < t
    ensures |s| < |t|
  {
    var x :| x in t && x !in s;
    assert t == (t - {x}) + {x};
    SubsetAtMost(s, t - {x});
  }

  lemma {:induction false} SubsetAtMost(s: set<nat>, t: set<nat>)
    requires s <= t
    ensures |s| <= |t|
  {
    if s != {} {
      var x :| x in s;
      SubsetAtMost(s - {x}, t - {x});
    }
  }

  /** Repeated passes terminate: after as many passes as there were live orders, no two
      live orders of the same token satisfy the crossing rule, however the database
      breaks ties between orders of the same price and age. */
  lemma {:induction false} PassesReachQuiet(books: seq<Book>, quoteDecimals: nat)
    requires books != []
    requires forall i :: 0 <= i < |books| - 1 ==> PassStep(books[i], books[i + 1], quoteDecimals)
    requires |LiveIds(books[0].rows)| < |books|
    ensures Quiet(books[|books| - 1].rows)
  {
    if |books| == 1 {
      assert LiveIds(books[0].rows) == {};
      assert forall i :: 0 <= i < |books[0].rows| && Live(books[0].rows[i]) ==> i in LiveIds(books[0].rows);
    } else {
      PassProgress(books[0], books[1], quoteDecimals);
      if Quiet(books[0].rows) {
        QuietStays(books, quoteDecimals);
      } else {
        SubsetCardinality(LiveIds(books[1].rows), LiveIds(books[0].rows));
        PassesReachQuiet(books[1..], quoteDecimals);
      }
    }
  }

  lemma {:induction false} QuietStays(books: seq<Book>, quoteDecimals: nat)
    requires books != [] && Quiet(books[0].rows)
    requires forall i :: 0 <= i < |books| - 1 ==> PassStep(books[i], books[i + 1], quoteDecimals)
    ensures books[|books| - 1] == books[0]
  {
    if |books| > 1 {
      PassProgress(books[0], books[1], quoteDecimals);
      QuietStays(books[1..], quoteDecimals);
    }
  }

  // ------------------------------------------------------------- every book has its queues

  function Insert(t: Table, side: Side, ids: seq<nat>, id: nat): seq<nat>
    requires ValidIds(t, ids) && id < |t|
  {
    if ids == [] || !NotWorse(t[ids[|ids| - 1]], t[id], side) then
      if ids == [] then [id] else Insert(t, side, ids[..|ids| - 1], id) + [ids[|ids| - 1]]
    else ids + [id]
  }

  ghost predicate Ordered(t: Table, side: Side, ids: seq<nat>)
    requires ValidIds(t, ids)
  {
    forall i, j :: 0 <= i < j < |ids| ==> NotWorse(t[ids[i]], t[ids[j]], side)
  }

  ghost predicate Sorted(t: Table, side: Side, ids: seq<nat>) {
    ValidIds(t, ids) && Ordered(t, side, ids) && Distinct(ids)
  }

  lemma AppendSorted(t: Table, side: Side, ids: seq<nat>, id: nat)
    requires Sorted(t, side, ids) && id < |t|
    requires forall i :: 0 <= i < |ids| ==> ids[i] != id && NotWorse(t[ids[i]], t[id], side)
    ensures Sorted(t, side, ids + [id])
  {
    var r := ids + [id];
    forall i, j | 0 <= i < j < |r|
      ensures r[i] != r[j] && NotWorse(t[r[i]], t[r[j]], side)
    {
      assert r[i] == ids[i];
      if j < |ids| {
        assert ids[i] != ids[j] && NotWorse(t[ids[i]], t[ids[j]], side);
      }
    }
  }

  lemma NotWorseTransitive(a: Order, b: Order, c: Order, side: Side)
    requires NotWorse(a, b, side) && NotWorse(b, c, side)
    ensures NotWorse(a, c, side)
  {
  }

  lemma {:induction false} InsertSorts(t: Table, side: Side, ids: seq<nat>, id: nat)
    requires Sorted(t, side, ids) && id < |t| && id !in ids
    ensures var r := Insert(t, side, ids, id);
            (forall x :: x in r <==> x in ids || x == id) && Sorted(t, side, r)
  {
    var n := |ids| - 1;
    if ids == [] || NotWorse(t[ids[n]], t[id], side) {
      forall i | 0 <= i < |ids|
        ensures ids[i] != id && NotWorse(t[ids[i]], t[id], side)
      {
        if i < n {
          NotWorseTransitive(t[ids[i]], t[ids[n]], t[id], side);
        }
      }
      AppendSorted(t, side, ids, id);
    } else {
      assert ids == ids[..n] + [ids[n]];
      InsertSorts(t, side, ids[..n], id);
      var head := Insert(t, side, ids[..n], id);
      forall i | 0 <= i < |head|
        ensures head[i] != ids[n] && NotWorse(t[head[i]], t[ids[n]], side)
      {
        assert head[i] in ids[..n] || head[i] == id;
      }
      AppendSorted(t, side, head, ids[n]);
    }
  }

  /** The two order queries always have an answer, so a pass can always be made. */
  lemma {:induction false} QueueExists(t: Table, side: Side, n: nat) returns (ids: seq<nat>)
    requires n <= |t|
    ensures Sorted(t, side, ids)
    ensures forall i: nat :: i in ids <==> i < n && t[i].side == side && IsOpenStatus(t[i].status)
  {
    if n == 0 {
      ids := [];
    } else {
      ids := QueueExists(t, side, n - 1);
      if t[n - 1].side == side && IsOpenStatus(t[n - 1].status) {
        InsertSorts(t, side, ids, n - 1);
        ids := Insert(t, side, ids, n - 1);
      }
    }
  }

  lemma PassExists(a: Book, quoteDecimals: nat)
    ensures exists b :: PassStep(a, b, quoteDecimals)
  {
    var buys := QueueExists(a.rows, Buy, |a.rows|);
    var sells := QueueExists(a.rows, Sell, |a.rows|);
    assert IsQueue(a.rows, Buy, buys) && IsQueue(a.rows, Sell, sells);
    var ms := Proposals(a.rows, buys, sells);
    assert PassStep(a, Pass(a, ms, AllTrue(|ms|), quoteDecimals), quoteDecimals);
  }
}
