/** Equity, liquidation price and the liquidation test, written once for the portfolio
    (backend/src/services/positionService.ts:265-321), once for the executor
    (backend/src/services/liquidationExecutorService.ts:630-644), and the collateral split
    of the keeper that they both rest on
    (backend/src/services/orderKeeperService.ts:1471-1531). JavaScript numbers are
    modelled as reals; floor, ceil and Math.round are kept. */
module Liquidation {
  import opened Orders

  datatype Direction = Long | Short

  datatype PositionKind = Spot | Leveraged

  datatype Holding = Holding(direction: Direction, kind: PositionKind, shares: nat, entry: Bps, collateral: nat)

  // ------------------------------------------------------------------------- portfolio

  /** A missing price and a price of zero both fall back to the entry price. */
  function CurrentPrice(mark: Option<Bps>, entry: Bps): (price: Bps)
    ensures mark.GetOr(0) == 0 ==> price == entry
    ensures mark.GetOr(0) > 0 ==> mark == Some(price)
  {
    if mark.Some? && mark.value != 0 then mark.value else entry
  }

  /** Human quote value: shares always carry six decimals. */
  function Value(shares: nat, price: Bps): real {
    (shares * price) as real / (10000.0 * 1000000.0)
  }

  function Pnl(h: Holding, price: Bps): real {
    if h.direction.Long? then Value(h.shares, price) - Value(h.shares, h.entry)
    else Value(h.shares, h.entry) - Value(h.shares, price)
  }

  function Equity(h: Holding, price: Bps, quoteDecimals: nat): real {
    h.collateral as real / Pow10(quoteDecimals) as real + Pnl(h, price)
  }

  predicate IsLiquidatable(h: Holding, price: Bps, quoteDecimals: nat) {
    Equity(h, price, quoteDecimals) < Value(h.shares, price) * 0.10
  }

  /** The price at which equity meets maintenance, before rounding and clamping. */
  function RawLiquidationPrice(h: Holding, quoteDecimals: nat): real
    requires h.shares > 0
  {
    SolvedPrice(h.direction, h.entry as real, h.shares as real, ShareCollateral(h, quoteDecimals))
  }

  function SolvedPrice(d: Direction, entry: real, shares: real, collateral: real): real
    requires shares > 0.0
  {
    if d.Long? then (entry * shares - collateral * 10000.0) / (0.90 * shares)
    else (entry * shares + collateral * 10000.0) / (1.10 * shares)
  }

  function Ceil(x: real): int {
    -(-x).Floor
  }

  /** Only leveraged positions with shares have a liquidation price. */
  function LiquidationPrice(h: Holding, quoteDecimals: nat): (shown: Option<int>)
    ensures shown.Some? <==> h.kind == Leveraged && h.shares > 0
  {
    if h.kind.Leveraged? && h.shares > 0 then
      var raw := RawLiquidationPrice(h, quoteDecimals);
      Some(Max(0, Min(10000, if h.direction.Long? then raw.Floor else Ceil(raw))))
    else None
  }

  // ---------------------------------------------------------------- the exact threshold

  lemma DivideUnique(y: real, n: real, d: real)
    requires d != 0.0 && y * d == n
    ensures y == n / d
  {
  }

  lemma DivideByProduct(n: real, a: real, b: real)
    requires a > 0.0 && b > 0.0 && a * b > 0.0
    ensures n / (a * b) == n / b / a
  {
    var x := n / b;
    assert x * b == n;
    assert x / a * a == x;
    assert x / a * (a * b) == x / a * a * b;
    DivideUnique(x / a, n, a * b);
  }

  lemma CompareQuotient(p: real, n: real, d: real)
    requires d > 0.0
    ensures p < n / d <==> p * d < n
    ensures n / d < p <==> n < p * d
  {
    var q := n / d;
    assert q * d == n;
    if p < q {
      assert (q - p) * d > 0.0;
    } else {
      assert (p - q) * d >= 0.0;
    }
    if q < p {
      assert (p - q) * d > 0.0;
    } else {
      assert (q - p) * d >= 0.0;
    }
  }

  /** For six decimals and more, a quote token is a million times the quote scale. */
  lemma QuoteUnit(quoteDecimals: nat)
    requires quoteDecimals >= 6
    ensures Pow10(quoteDecimals) == 1000000 * QuoteScale(quoteDecimals)
  {
    Thousand(quoteDecimals - 6);
    Thousand(quoteDecimals - 3);
  }

  lemma Thousand(k: nat)
    ensures Pow10(k + 3) == 1000 * Pow10(k)
  {
    assert Pow10(k + 2) == 100 * Pow10(k);
  }

  /** The collateral in share base units. */
  function ShareCollateral(h: Holding, quoteDecimals: nat): (c: real)
    ensures c >= 0.0
  {
    CompareQuotient(0.0, h.collateral as real, QuoteScale(quoteDecimals) as real);
    var c := h.collateral as real / QuoteScale(quoteDecimals) as real;
    CompareQuotient(c, h.collateral as real, QuoteScale(quoteDecimals) as real);
    c
  }

  /** The liquidation test cleared of its divisions; now and start are the value at the
      current price and at entry, scaled alike. */
  predicate ClearedTest(d: Direction, now: real, start: real, c: real) {
    if d.Long? then 0.90 * now < start - 10000.0 * c else start + 10000.0 * c < 1.10 * now
  }

  lemma TestWithoutDivision(h: Holding, price: Bps, quoteDecimals: nat)
    requires quoteDecimals >= 6
    ensures IsLiquidatable(h, price, quoteDecimals) <==>
            ClearedTest(h.direction, h.shares as real * price as real, h.shares as real * h.entry as real,
                        ShareCollateral(h, quoteDecimals))
  {
    ProductOfReals(h.shares, price);
    ProductOfReals(h.shares, h.entry);
    var scale := QuoteScale(quoteDecimals) as real;
    QuoteUnit(quoteDecimals);
    assert Pow10(quoteDecimals) as real == 1000000.0 * scale;
    DivideByProduct(h.collateral as real, 1000000.0, scale);
  }

  lemma SolveForPrice(p: real, s: real, n: real, m: real)
    requires s > 0.0 && m > 0.0
    ensures p < n / (m * s) <==> m * (s * p) < n
    ensures n / (m * s) < p <==> n < m * (s * p)
  {
    assert m * s > 0.0;
    CompareQuotient(p, n, m * s);
    assert p * (m * s) == m * (s * p);
  }

  lemma ClearedTestSolved(d: Direction, p: real, s: real, e: real, c: real)
    requires s > 0.0
    ensures ClearedTest(d, s * p, s * e, c) <==>
            if d.Long? then p < SolvedPrice(d, e, s, c) else SolvedPrice(d, e, s, c) < p
  {
    if d.Long? {
      SolveForPrice(p, s, e * s - c * 10000.0, 0.90);
    } else {
      SolveForPrice(p, s, e * s + c * 10000.0, 1.10);
    }
  }

  /** The unrounded price separates the liquidatable prices from the others. */
  lemma RawPriceIsThreshold(h: Holding, price: Bps, quoteDecimals: nat)
    requires quoteDecimals >= 6 && h.shares > 0
    ensures IsLiquidatable(h, price, quoteDecimals) <==>
            if h.direction.Long? then price as real < RawLiquidationPrice(h, quoteDecimals)
            else RawLiquidationPrice(h, quoteDecimals) < price as real
  {
    TestWithoutDivision(h, price, quoteDecimals);
    ClearedTestSolved(h.direction, price as real, h.shares as real, h.entry as real, ShareCollateral(h, quoteDecimals));
  }

  lemma ProductOfReals(a: nat, b: nat)
    ensures (a * b) as real == a as real * b as real
  {
  }

  /** The displayed price separates this price exactly: strictly beyond it the position is
      liquidatable, strictly before it is not, and at it the unrounded price decides. */
  predicate ShownIsThreshold(h: Holding, price: Bps, quoteDecimals: nat)
    requires h.shares > 0
  {
    var shown := LiquidationPrice(h, quoteDecimals);
    var raw := RawLiquidationPrice(h, quoteDecimals);
    && shown.Some? && 0 <= shown.value <= 10000
    && (IsLiquidatable(h, price, quoteDecimals) <==>
        if h.direction.Long? then price < shown.value || (price == shown.value && shown.value as real < raw)
        else price > shown.value || (price == shown.value && raw < shown.value as real))
  }

  /** With six or more quote decimals the displayed price is the exact threshold to one
      basis point, for every leveraged position and every price in the book. */
  lemma DisplayedPriceIsThreshold(h: Holding, price: Bps, quoteDecimals: nat)
    requires quoteDecimals >= 6 && h.kind.Leveraged? && h.shares > 0 && price <= 10000
    ensures ShownIsThreshold(h, price, quoteDecimals)
  {
    RawPriceIsThreshold(h, price, quoteDecimals);
    var raw := RawLiquidationPrice(h, quoteDecimals);
    assert raw.Floor as real <= raw < raw.Floor as real + 1.0;
    assert (-raw).Floor as real <= -raw < (-raw).Floor as real + 1.0;
    if h.direction.Short? {
      var n := h.entry as real * h.shares as real + ShareCollateral(h, quoteDecimals) * 10000.0;
      CompareQuotient(0.0, n, 1.10 * h.shares as real);
      CompareQuotient(raw, n, 1.10 * h.shares as real);
      assert raw >= 0.0;
    }
  }

  /** It is rounded to the side that liquidates: within the price range, the displayed price
      itself liquidates the position unless it is the unrounded one. */
  lemma DisplayedPriceLiquidates(h: Holding, quoteDecimals: nat)
    requires quoteDecimals >= 6 && h.kind.Leveraged? && h.shares > 0
    requires 0.0 <= RawLiquidationPrice(h, quoteDecimals) <= 10000.0
    ensures var shown := LiquidationPrice(h, quoteDecimals);
            && shown.Some? && 0 <= shown.value <= 10000
            && (IsLiquidatable(h, shown.value, quoteDecimals) <==>
                shown.value as real != RawLiquidationPrice(h, quoteDecimals))
  {
    var raw, shown := RawLiquidationPrice(h, quoteDecimals), LiquidationPrice(h, quoteDecimals).value;
    assert raw.Floor as real <= raw < raw.Floor as real + 1.0;
    assert (-raw).Floor as real <= -raw < (-raw).Floor as real + 1.0;
    assert 0 <= shown <= 10000;
    RawPriceIsThreshold(h, shown, quoteDecimals);
  }

  /** With fewer than six quote decimals the price takes the collateral at face value while
      the equity divides it by a smaller power of ten: this long is displayed at 4444 and is
      not liquidatable at 4000. */
  lemma FewerDecimalsBreakThreshold(quoteDecimals: nat)
    requires quoteDecimals < 6
    ensures var h := Holding(Long, Leveraged, 1000000, 5000, 100000);
            && LiquidationPrice(h, quoteDecimals) == Some(4444) && !IsLiquidatable(h, 4000, quoteDecimals)
            && !ShownIsThreshold(h, 4000, quoteDecimals)
  {
    SmallPowers(quoteDecimals);
    SampleIsSafe(quoteDecimals);
  }

  lemma SmallPowers(n: nat)
    requires n < 6
    ensures 1 <= Pow10(n) <= 100000 && QuoteScale(n) == 1
  {
    assert Pow10(1) == 10 && Pow10(2) == 100 && Pow10(3) == 1000 && Pow10(4) == 10000 && Pow10(5) == 100000;
  }

  lemma SampleIsSafe(quoteDecimals: nat)
    requires 1 <= Pow10(quoteDecimals) <= 100000 && QuoteScale(quoteDecimals) == 1
    ensures var h := Holding(Long, Leveraged, 1000000, 5000, 100000);
            LiquidationPrice(h, quoteDecimals) == Some(4444) && !IsLiquidatable(h, 4000, quoteDecimals)
  {
    var h := Holding(Long, Leveraged, 1000000, 5000, 100000);
    CompareQuotient(0.5, 100000.0, Pow10(quoteDecimals) as real);
    assert Pnl(h, 4000) == -0.1 && Value(1000000, 4000) == 0.4;
    assert ShareCollateral(h, quoteDecimals) == 100000.0;
    assert RawLiquidationPrice(h, quoteDecimals) == 4000000000.0 / 900000.0;
  }

  /** So the displayed price is the threshold of every leveraged position at every price of
      the book if and only if the quote token has six decimals or more. */
  lemma ThresholdExactly(quoteDecimals: nat)
    ensures (forall h: Holding, price: Bps :: h.kind.Leveraged? && h.shares > 0 && price <= 10000
               ==> ShownIsThreshold(h, price, quoteDecimals))
            <==> quoteDecimals >= 6
  {
    if quoteDecimals >= 6 {
      forall h: Holding, price: Bps | h.kind.Leveraged? && h.shares > 0 && price <= 10000
        ensures ShownIsThreshold(h, price, quoteDecimals)
      {
        DisplayedPriceIsThreshold(h, price, quoteDecimals);
      }
    } else {
      FewerDecimalsBreakThreshold(quoteDecimals);
    }
  }

  // -------------------------------------------------------------------------- executor

  function BaseValue(shares: nat, price: Bps): real {
    (shares * price) as real / 10000.0
  }

  function RawExecutorEquity(h: Holding, price: Bps): real {
    h.collateral as real +
    if h.direction.Long? then BaseValue(h.shares, price) - BaseValue(h.shares, h.entry)
    else BaseValue(h.shares, h.entry) - BaseValue(h.shares, price)
  }

  function ExecutorEquity(h: Holding, price: Bps): real {
    var equity := RawExecutorEquity(h, price);
    if equity > 0.0 then equity else 0.0
  }

  predicate ExecutorLiquidatable(h: Holding, price: Bps) {
    ExecutorEquity(h, price) < BaseValue(h.shares, price) * 1000.0 / 10000.0
  }

  function Priority(h: Holding, price: Bps): int {
    var equityRatio := if BaseValue(h.shares, price) > 0.0 then ExecutorEquity(h, price) / BaseValue(h.shares, price)
      else 0.0;
    if ExecutorLiquidatable(h, price) then Max(0, 1000 - (equityRatio * 1000.0).Floor) else 0
  }

  /** The two independently written tests give the same verdict exactly when the position
      is worth something or its equity is not negative: at value zero the clamped equity
      of the executor hides a loss that the portfolio sees. */
  lemma VerdictsAgreeExactly(h: Holding, price: Bps)
    ensures (ExecutorLiquidatable(h, price) <==> IsLiquidatable(h, price, 6)) <==>
            BaseValue(h.shares, price) > 0.0 || RawExecutorEquity(h, price) >= 0.0
  {
    assert Pow10(1) == 10 && Pow10(2) == 100 && Pow10(3) == 1000 && Pow10(4) == 10000 && Pow10(5) == 100000
      && Pow10(6) == 1000000;
    assert Value(h.shares, price) == BaseValue(h.shares, price) / 1000000.0;
    assert Equity(h, price, 6) == RawExecutorEquity(h, price) / 1000000.0;
  }

  lemma ScaledFloor(x: real, y: real)
    requires x <= y
    ensures (x * 1000.0).Floor <= (y * 1000.0).Floor
  {
  }

  /** Liquidatable positions are exactly those with a priority, and it lies in 901..1000. */
  lemma PriorityBand(h: Holding, price: Bps)
    ensures ExecutorLiquidatable(h, price) <==> 901 <= Priority(h, price) <= 1000
    ensures !ExecutorLiquidatable(h, price) <==> Priority(h, price) == 0
  {
    var e, v := ExecutorEquity(h, price), BaseValue(h.shares, price);
    if ExecutorLiquidatable(h, price) {
      CompareQuotient(0.10, e, v);
      CompareQuotient(0.0, e, v);
      CompareQuotient(e / v, e, v);
    }
  }

  lemma PriorityIsFloored(h: Holding, price: Bps)
    requires ExecutorLiquidatable(h, price)
    ensures var e, v := ExecutorEquity(h, price), BaseValue(h.shares, price);
            v > 0.0 && 1000 - Priority(h, price) == (e / v * 1000.0).Floor
  {
    PriorityBand(h, price);
  }

  lemma FlooredRatio(e: real, v: real, p: int)
    requires v > 0.0 && p == (e / v * 1000.0).Floor
    ensures 0.0 <= 1000.0 * e - p as real * v < v
  {
    var gap := e / v * 1000.0 - p as real;
    assert 0.0 <= gap < 1.0;
    assert gap * v >= 0.0 && (1.0 - gap) * v > 0.0;
    assert e / v * v == e;
    assert gap * v == 1000.0 * e - p as real * v;
  }

  /** The priority of a liquidatable position is a thousand less its equity ratio in
      thousandths, rounded down. */
  lemma PriorityMeasuresRatio(h: Holding, price: Bps)
    requires ExecutorLiquidatable(h, price)
    ensures var v, p := BaseValue(h.shares, price), 1000 - Priority(h, price);
            0.0 <= 1000.0 * ExecutorEquity(h, price) - p as real * v < v
  {
    PriorityIsFloored(h, price);
    FlooredRatio(ExecutorEquity(h, price), BaseValue(h.shares, price), 1000 - Priority(h, price));
  }

  /** The poorer of two liquidatable positions never comes later in the queue. */
  lemma PriorityFollowsRatio(h: Holding, price: Bps, h': Holding, price': Bps)
    ensures ExecutorLiquidatable(h, price) && ExecutorLiquidatable(h', price')
            && ExecutorEquity(h, price) / BaseValue(h.shares, price) <=
               ExecutorEquity(h', price') / BaseValue(h'.shares, price')
            ==> Priority(h, price) >= Priority(h', price')
  {
    if ExecutorLiquidatable(h, price) && ExecutorLiquidatable(h', price') {
      var x, y := ExecutorEquity(h, price) / BaseValue(h.shares, price),
        ExecutorEquity(h', price') / BaseValue(h'.shares, price');
      if x <= y {
        ScaledFloor(x, y);
      }
    }
  }

  // ---------------------------------------------------------- the keeper's collateral split

  /** Notional times 10000, in quote base units. */
  function ScaledNotional(shares: nat, price: Bps, quoteDecimals: nat): nat {
    shares * price * QuoteScale(quoteDecimals)
  }

  datatype Split = Split(collateral: int, borrowed: int)

  /** A created row: the rest of the notional is rounded after the collateral. */
  function SplitOnCreate(shares: nat, price: Bps, leverage: nat, quoteDecimals: nat): Split
    requires leverage >= 1
  {
    var n := ScaledNotional(shares, price, quoteDecimals);
    var collateral := RoundDiv(n, 10000 * leverage);
    Split(collateral, if leverage > 1 then RoundDiv(n - 10000 * collateral, 10000) else 0)
  }

  /** An incremented row: both parts are rounded from the exact quotient. */
  function SplitOnIncrement(shares: nat, price: Bps, leverage: nat, quoteDecimals: nat): Split
    requires leverage >= 1
  {
    var n := ScaledNotional(shares, price, quoteDecimals);
    Split(RoundDiv(n, 10000 * leverage), if leverage > 1 then RoundDiv(n * leverage - n, 10000 * leverage) else 0)
  }

  /** The collateral of a created row is the notional over the leverage, to the nearest
      unit and halves upwards; without leverage nothing is borrowed. */
  lemma CreatePartsNearest(shares: nat, price: Bps, leverage: nat, quoteDecimals: nat)
    requires leverage >= 1
    ensures var x, n, d := SplitOnCreate(shares, price, leverage, quoteDecimals),
                           shares * price * QuoteScale(quoteDecimals), 10000 * leverage;
            && -d < 2 * (x.collateral * d - n) <= d
            && (leverage == 1 ==> x.borrowed == 0)
            && (leverage > 1 ==> -10000 < 2 * ((x.collateral + x.borrowed) * 10000 - n) <= 10000)
  {
    CreateSplitsExactly(shares, price, leverage, quoteDecimals);
  }

  /** The two parts of an incremented row: the notional over the leverage, and the rest of
      the exact quotient, each to the nearest unit. */
  lemma IncrementPartsNearest(shares: nat, price: Bps, leverage: nat, quoteDecimals: nat)
    requires leverage >= 1
    ensures var x, n, d := SplitOnIncrement(shares, price, leverage, quoteDecimals),
                           shares * price * QuoteScale(quoteDecimals), 10000 * leverage;
            && -d < 2 * (x.collateral * d - n) <= d
            && (leverage == 1 ==> x.borrowed == 0)
            && (leverage > 1 ==> -d < 2 * (x.borrowed * d - (n * leverage - n)) <= d)
  {
    var n, d := ScaledNotional(shares, price, quoteDecimals), 10000 * leverage;
    assert -d < 2 * (RoundDiv(n, d) * d - n) <= d;
    assert -d < 2 * (RoundDiv(n * leverage - n, d) * d - (n * leverage - n)) <= d;
  }

  /** Creation loses nothing: the parts add up to the rounded notional. */
  lemma CreateSplitsExactly(shares: nat, price: Bps, leverage: nat, quoteDecimals: nat)
    requires leverage >= 1
    ensures var x := SplitOnCreate(shares, price, leverage, quoteDecimals);
            x.collateral + x.borrowed == RoundDiv(ScaledNotional(shares, price, quoteDecimals), 10000)
  {
    var n := ScaledNotional(shares, price, quoteDecimals);
    var c := RoundDiv(n, 10000 * leverage);
    assert 2 * (n - 10000 * c) + 10000 == 2 * n + 10000 - 20000 * c;
  }

  /** An increment is within one unit of the rounded notional. */
  lemma IncrementSplitsWithinOne(shares: nat, price: Bps, leverage: nat, quoteDecimals: nat)
    requires leverage >= 1
    ensures var x := SplitOnIncrement(shares, price, leverage, quoteDecimals);
            -1 <= x.collateral + x.borrowed - RoundDiv(ScaledNotional(shares, price, quoteDecimals), 10000) <= 1
  {
    var n := ScaledNotional(shares, price, quoteDecimals);
    if leverage > 1 {
      HalvesNearWhole(RoundDiv(n, 10000 * leverage), RoundDiv(n * leverage - n, 10000 * leverage),
        RoundDiv(n, 10000), n, leverage);
    }
  }

  lemma HalvesNearWhole(c: int, b: int, w: int, n: nat, leverage: nat)
    requires leverage >= 1
    requires -(10000 * leverage) < 2 * (c * (10000 * leverage) - n) <= 10000 * leverage
    requires -(10000 * leverage) < 2 * (b * (10000 * leverage) - (n * leverage - n)) <= 10000 * leverage
    requires -10000 < 2 * (w * 10000 - n) <= 10000
    ensures -1 <= c + b - w <= 1
  {
    var d, gap := 10000 * leverage, c + b - w;
    WholeScaled(w, n, leverage);
    assert gap * d == c * d + b * d - w * d;
    MultiplesApart(1, gap, d);
    MultiplesApart(gap, -1, d);
  }

  lemma ScaleBounds(y: int, k: int, leverage: nat)
    requires -k <= y <= k
    ensures -(k * leverage) <= y * leverage <= k * leverage
  {
    assert (y + k) * leverage >= 0 && (k - y) * leverage >= 0;
    assert (y + k) * leverage == y * leverage + k * leverage;
    assert (k - y) * leverage == k * leverage - y * leverage;
  }

  lemma WholeScaled(w: int, n: nat, leverage: nat)
    requires leverage >= 1 && -10000 < 2 * (w * 10000 - n) <= 10000
    ensures -(10000 * leverage) <= 2 * (w * (10000 * leverage) - n * leverage) <= 10000 * leverage
  {
    ScaleBounds(2 * (w * 10000 - n), 10000, leverage);
    assert w * (10000 * leverage) == 10000 * (w * leverage);
    assert 2 * (w * 10000 - n) * leverage == 20000 * (w * leverage) - 2 * (n * leverage);
  }

  /** One for a remainder that is rounded up. */
  function RoundsUp(r: nat, d: nat): nat {
    if 2 * r >= d then 1 else 0
  }

  /** What an increment's split differs by from the rounded notional: each part may round its
      own remainder up, the whole rounds the two remainders together. */
  function SplitError(shares: nat, price: Bps, leverage: nat, quoteDecimals: nat): int
    requires leverage >= 1
  {
    var n, d := ScaledNotional(shares, price, quoteDecimals), 10000 * leverage;
    var x, y := n % d, (n * leverage - n) % d;
    RoundsUp(x, d) + RoundsUp(y, d) - RoundDiv(x + y, d)
  }

  /** The collateral and the debt of an increment add up to the rounded notional if and only
      if rounding the two remainders apart makes no difference to rounding them together. */
  lemma IncrementSplitsExactly(shares: nat, price: Bps, leverage: nat, quoteDecimals: nat)
    requires leverage >= 1
    ensures var x, whole := SplitOnIncrement(shares, price, leverage, quoteDecimals),
                            RoundDiv(ScaledNotional(shares, price, quoteDecimals), 10000);
            && x.collateral + x.borrowed - whole == SplitError(shares, price, leverage, quoteDecimals)
            && (x.collateral + x.borrowed == whole <==> SplitError(shares, price, leverage, quoteDecimals) == 0)
  {
    var n, d := ScaledNotional(shares, price, quoteDecimals), 10000 * leverage;
    DebtPart(n, leverage);
    RoundByRemainder(n, d);
    RoundByRemainder(n * leverage - n, d);
    RoundTogether(n, n * leverage - n, d);
    RoundScaled(n, leverage);
  }

  lemma DebtPart(n: nat, leverage: nat)
    requires leverage >= 1
    ensures n * leverage - n >= 0 && (leverage == 1 ==> n * leverage - n == 0)
  {
    assert n * (leverage - 1) == n * leverage - n;
  }

  /** Only one integer is that near. */
  lemma NearestIsRoundDiv(r: int, n: int, d: int)
    requires d > 0 && -d < 2 * (r * d - n) <= d
    ensures r == RoundDiv(n, d)
  {
    MultiplesApart(r, RoundDiv(n, d), d);
    MultiplesApart(RoundDiv(n, d), r, d);
  }

  lemma RoundByRemainder(m: nat, d: nat)
    requires d > 0
    ensures RoundDiv(m, d) == m / d + RoundsUp(m % d, d)
  {
    var q, r, up := m / d, m % d, RoundsUp(m % d, d);
    assert m == q * d + r;
    assert (q + up) * d == q * d + up * d;
    assert up * d == if up == 1 then d else 0;
    NearestIsRoundDiv(q + up, m, d);
  }

  lemma RoundTogether(a: nat, b: nat, d: nat)
    requires d > 0
    ensures RoundDiv(a + b, d) == a / d + b / d + RoundDiv(a % d + b % d, d)
  {
    var rest := RoundDiv(a % d + b % d, d);
    assert a == a / d * d + a % d && b == b / d * d + b % d;
    assert (a / d + b / d + rest) * d == a / d * d + b / d * d + rest * d;
    NearestIsRoundDiv(a / d + b / d + rest, a + b, d);
  }

  lemma RoundScaled(n: nat, leverage: nat)
    requires leverage >= 1
    ensures RoundDiv(n + (n * leverage - n), 10000 * leverage) == RoundDiv(n, 10000)
  {
    var w := RoundDiv(n, 10000);
    assert -10000 < 2 * (w * 10000 - n) <= 10000;
    assert w * (10000 * leverage) == w * 10000 * leverage;
    assert 2 * (w * (10000 * leverage) - n * leverage) == 2 * (w * 10000 - n) * leverage;
    StrictlyScaled(2 * (w * 10000 - n), leverage);
    NearestIsRoundDiv(w, n * leverage, 10000 * leverage);
  }

  lemma ProductAtLeast(a: int, b: int)
    requires a >= 0 && b >= 1
    ensures a * b >= a
  {
  }

  lemma SumTimes(a: int, b: int, c: int)
    ensures (a + b) * c == a * c + b * c
  {
  }

  lemma StrictlyScaled(y: int, leverage: nat)
    requires leverage >= 1 && -10000 < y <= 10000
    ensures -(10000 * leverage) < y * leverage <= 10000 * leverage
  {
    ProductAtLeast(y + 10000, leverage);
    ProductAtLeast(10000 - y, leverage);
    SumTimes(y, 10000, leverage);
    SumTimes(10000, -y, leverage);
  }

  /** A unit can be gained: two halves are both rounded up. */
  lemma IncrementCanGainOne()
    ensures var x := SplitOnIncrement(10000, 1, 2, 6);
            x.collateral + x.borrowed == RoundDiv(ScaledNotional(10000, 1, 6), 10000) + 1
            && SplitError(10000, 1, 2, 6) == 1
  {
    assert ScaledNotional(10000, 1, 6) == 10000;
  }

  /** And one can be lost: three tenths and three tenths are rounded down, six are not. */
  lemma IncrementCanLoseOne()
    ensures var x := SplitOnIncrement(6000, 1, 2, 6);
            x.collateral + x.borrowed == RoundDiv(ScaledNotional(6000, 1, 6), 10000) - 1
            && SplitError(6000, 1, 2, 6) == -1
  {
    assert ScaledNotional(6000, 1, 6) == 6000;
  }

  /** A long is liquidatable at its own entry price exactly when its collateral is below a
      tenth of its notional. */
  lemma LongAtEntry(h: Holding, quoteDecimals: nat)
    requires h.direction.Long? && quoteDecimals >= 6
    ensures IsLiquidatable(h, h.entry, quoteDecimals) <==>
            100000 * h.collateral < ScaledNotional(h.shares, h.entry, quoteDecimals)
  {
    TestWithoutDivision(h, h.entry, quoteDecimals);
    ProductOfReals(h.shares, h.entry);
    TestAtEntry(h.shares as real * h.entry as real, h.collateral as real, QuoteScale(quoteDecimals) as real);
    ProductOfReals(h.shares * h.entry, QuoteScale(quoteDecimals));
    assert (100000 * h.collateral) as real == 100000.0 * h.collateral as real;
  }

  lemma TestAtEntry(v: real, collateral: real, scale: real)
    requires scale > 0.0
    ensures 0.90 * v < v - 10000.0 * (collateral / scale) <==> 100000.0 * collateral < v * scale
  {
    CompareQuotient(v / 100000.0, collateral, scale);
    assert (v / 100000.0) * scale == v * scale / 100000.0;
  }

  /** A new long with leverage two to nine and a notional of at least 45 quote units
      survives its own entry price: rounding cannot eat the margin above a tenth. */
  lemma FreshLongIsSafe(shares: nat, price: Bps, leverage: nat, quoteDecimals: nat)
    requires 2 <= leverage <= 9 && quoteDecimals >= 6
    requires ScaledNotional(shares, price, quoteDecimals) >= 45 * 10000
    ensures var c := SplitOnCreate(shares, price, leverage, quoteDecimals).collateral;
            c >= 0 && !IsLiquidatable(Holding(Long, Leveraged, shares, price, c), price, quoteDecimals)
  {
    var n := ScaledNotional(shares, price, quoteDecimals);
    var c := RoundDiv(n, 10000 * leverage);
    CollateralAboveTenth(c, n, leverage);
    LongAtEntry(Holding(Long, Leveraged, shares, price, c), quoteDecimals);
  }

  lemma CollateralAboveTenth(c: int, n: nat, leverage: nat)
    requires 2 <= leverage <= 9 && n >= 450000
    requires -(10000 * leverage) < 2 * (c * (10000 * leverage) - n)
    ensures 100000 * c >= n
  {
    assert leverage == 2 || leverage == 3 || leverage == 4 || leverage == 5 || leverage == 6 || leverage == 7
      || leverage == 8 || leverage == 9;
  }

  /** At leverage ten the margin is gone: the new long is liquidatable at entry exactly
      when rounding went down. */
  lemma FreshLongAtTen(shares: nat, price: Bps, quoteDecimals: nat)
    requires quoteDecimals >= 6
    ensures var c := SplitOnCreate(shares, price, 10, quoteDecimals).collateral;
            c >= 0 &&
            (IsLiquidatable(Holding(Long, Leveraged, shares, price, c), price, quoteDecimals) <==>
             0 < ScaledNotional(shares, price, quoteDecimals) % 100000 < 50000)
  {
    var n := ScaledNotional(shares, price, quoteDecimals);
    var c := RoundDiv(n, 100000);
    assert c == if n % 100000 < 50000 then n / 100000 else n / 100000 + 1;
    LongAtEntry(Holding(Long, Leveraged, shares, price, c), quoteDecimals);
  }

  // ------------------------------------------------------- the keeper's stored estimate

  /** The liquidation price that the keeper stores with a new row for which the chain has
      none, before rounding. */
  function StoredEstimate(price: Bps, leverage: nat): real
    requires leverage >= 1
  {
    price as real * (1.0 - 0.9 / leverage as real)
  }

  /** What is stored: the estimate after Math.round. */
  function StoredPrice(price: Bps, leverage: nat): int
    requires leverage >= 1
  {
    (StoredEstimate(price, leverage) + 0.5).Floor
  }

  lemma NotionalInReals(shares: nat, price: Bps, scale: nat)
    ensures (shares * price * scale) as real == shares as real * price as real * scale as real
    ensures (shares * scale) as real == shares as real * scale as real
    ensures shares * price * scale == shares * scale * price
  {
    ProductOfReals(shares, price);
    ProductOfReals(shares * price, scale);
    ProductOfReals(shares, scale);
  }

  /** When any price is below the one that liquidates a long, cleared of divisions. */
  lemma BelowRaw(h: Holding, quoteDecimals: nat, p: real)
    requires h.direction.Long? && h.shares > 0
    ensures p < RawLiquidationPrice(h, quoteDecimals) <==>
            9.0 * p * (h.shares * QuoteScale(quoteDecimals)) as real + 100000.0 * h.collateral as real
            < 10.0 * ScaledNotional(h.shares, h.entry, quoteDecimals) as real
  {
    var s, e, k := h.shares as real, h.entry as real, QuoteScale(quoteDecimals) as real;
    var c := ShareCollateral(h, quoteDecimals);
    NotionalInReals(h.shares, h.entry, QuoteScale(quoteDecimals));
    Unscaled(h.collateral as real, k);
    ScaledComparison(s, e, k, c, p);
    SolveForPrice(p, s, e * s - c * 10000.0, 0.90);
  }

  lemma Unscaled(c: real, k: real)
    requires k > 0.0
    ensures c / k * k == c
  {
  }

  lemma ScaledComparison(s: real, e: real, k: real, c: real, p: real)
    requires k > 0.0
    ensures 0.90 * (s * p) < e * s - c * 10000.0 <==>
            9.0 * p * (s * k) + 100000.0 * (c * k) < 10.0 * (s * e * k)
  {
    var gap := e * s - c * 10000.0 - 0.90 * (s * p);
    assert 10.0 * (s * e * k) - 9.0 * p * (s * k) - 100000.0 * (c * k) == 10.0 * (gap * k);
    SignOfProduct(gap, k);
  }

  /** Math.round of the estimate is an integer quotient. */
  lemma StoredPriceRounds(price: Bps, leverage: nat)
    requires leverage >= 1
    ensures StoredPrice(price, leverage) == RoundDiv(price * (10 * leverage - 9), 10 * leverage)
  {
    var x, r := StoredEstimate(price, leverage), RoundDiv(price * (10 * leverage - 9), 10 * leverage);
    EstimateProduct(price, leverage);
    RoundedReal(x, price * (10 * leverage - 9), 10 * leverage);
    assert r as real <= x + 0.5 < r as real + 1.0;
  }

  lemma EstimateProduct(price: Bps, leverage: nat)
    requires leverage >= 1
    ensures StoredEstimate(price, leverage) * (10.0 * leverage as real) ==
            price as real * (10.0 * leverage as real - 9.0)
    ensures StoredEstimate(price, leverage) * (10 * leverage) as real == (price * (10 * leverage - 9)) as real
  {
    EstimateTimes(price as real, leverage as real);
    ProductOfReals(price, 10 * leverage - 9);
  }

  lemma RoundedReal(x: real, n: nat, d: nat)
    requires d > 0 && x * d as real == n as real
    ensures RoundDiv(n, d) as real <= x + 0.5 < RoundDiv(n, d) as real + 1.0
  {
    var r := RoundDiv(n, d);
    IntegerProduct(r, d);
    BoundsInReals(r * d, n, d);
    HalfOpen(r as real, x, d as real, (r * d) as real, n as real);
  }

  lemma IntegerProduct(r: int, d: int)
    ensures (r * d) as real == r as real * d as real
  {
  }

  lemma BoundsInReals(m: int, n: int, d: int)
    requires -d < 2 * (m - n) <= d
    ensures -(d as real) < 2.0 * (m as real - n as real) <= d as real
  {
  }

  lemma EstimateTimes(e: real, l: real)
    requires l > 0.0
    ensures e * (1.0 - 0.9 / l) * (10.0 * l) == e * (10.0 * l - 9.0)
  {
    var y := 0.9 / l;
    assert y * l == 0.9;
    assert (1.0 - y) * (10.0 * l) == 10.0 * l - 10.0 * (y * l);
    assert e * (1.0 - y) * (10.0 * l) == e * ((1.0 - y) * (10.0 * l));
  }

  lemma HalfOpen(r: real, x: real, d: real, rd: real, xd: real)
    requires d > 0.0 && rd == r * d && xd == x * d && -d < 2.0 * (rd - xd) <= d
    ensures r <= x + 0.5 < r + 1.0
  {
    var g := r - x;
    assert g * d == rd - xd;
    assert (g - 0.5) * d == g * d - 0.5 * d && (g + 0.5) * d == g * d + 0.5 * d;
    SignOfProduct(g - 0.5, d);
    SignOfProduct(g + 0.5, d);
  }

  lemma SignOfProduct(g: real, d: real)
    requires d > 0.0
    ensures g * d > 0.0 <==> g > 0.0
    ensures g * d < 0.0 <==> g < 0.0
  {
  }

  /** The stored price is strictly below the one that liquidates, so that the long is lost
      before the stored price is reached, if and only if the collateral is below a tenth of
      what the entry and nine tenths of the stored price leave between them. It holds for
      every long, whatever its collateral. */
  lemma StoredPriceExactly(shares: nat, price: Bps, leverage: nat, collateral: nat, quoteDecimals: nat)
    requires shares > 0 && leverage >= 1
    ensures var stored := StoredPrice(price, leverage);
            stored as real < RawLiquidationPrice(Holding(Long, Leveraged, shares, price, collateral),
              quoteDecimals) <==>
            100000 * collateral < shares * QuoteScale(quoteDecimals) * (10 * price - 9 * stored)
  {
    IntegerBelowRaw(Holding(Long, Leveraged, shares, price, collateral), quoteDecimals, StoredPrice(price, leverage));
  }

  lemma IntegerBelowRaw(h: Holding, quoteDecimals: nat, p: int)
    requires h.direction.Long? && h.shares > 0
    ensures p as real < RawLiquidationPrice(h, quoteDecimals) <==>
            100000 * h.collateral < h.shares * QuoteScale(quoteDecimals) * (10 * h.entry - 9 * p)
  {
    BelowRaw(h, quoteDecimals, p as real);
    NotionalInReals(h.shares, h.entry, QuoteScale(quoteDecimals));
    IntegerComparison(p, h.shares * QuoteScale(quoteDecimals), h.collateral, h.entry);
  }

  lemma IntegerComparison(p: int, w: nat, c: nat, e: nat)
    ensures 9.0 * p as real * w as real + 100000.0 * c as real < 10.0 * (w * e) as real <==>
            100000 * c < w * (10 * e - 9 * p)
  {
    var pw := p * w;
    assert pw as real == p as real * w as real;
    assert 9.0 * p as real * w as real == 9.0 * (p as real * w as real);
    assert w * (10 * e - 9 * p) == 10 * (w * e) - 9 * pw;
  }

  /** The same before rounding, with no stored price in the condition. */
  lemma StoredEstimateExactly(shares: nat, price: Bps, leverage: nat, collateral: nat, quoteDecimals: nat)
    requires shares > 0 && leverage >= 1
    ensures StoredEstimate(price, leverage) <
            RawLiquidationPrice(Holding(Long, Leveraged, shares, price, collateral), quoteDecimals) <==>
            1000000 * (leverage * collateral) < ScaledNotional(shares, price, quoteDecimals) * (10 * leverage + 81)
  {
    EstimateProduct(price, leverage);
    ProductBelowRaw(Holding(Long, Leveraged, shares, price, collateral), quoteDecimals, leverage,
      StoredEstimate(price, leverage));
  }

  lemma ProductBelowRaw(h: Holding, quoteDecimals: nat, leverage: nat, x: real)
    requires h.direction.Long? && h.shares > 0 && leverage >= 1
    requires x * (10.0 * leverage as real) == h.entry as real * (10.0 * leverage as real - 9.0)
    ensures x < RawLiquidationPrice(h, quoteDecimals) <==>
            1000000 * (leverage * h.collateral) <
              ScaledNotional(h.shares, h.entry, quoteDecimals) * (10 * leverage + 81)
  {
    BelowRaw(h, quoteDecimals, x);
    NotionalInReals(h.shares, h.entry, QuoteScale(quoteDecimals));
    ProductCompared(x, h.shares * QuoteScale(quoteDecimals), h.entry, leverage, h.collateral);
  }

  lemma ProductCompared(x: real, w: nat, e: nat, leverage: nat, c: nat)
    requires leverage >= 1 && x * (10.0 * leverage as real) == e as real * (10.0 * leverage as real - 9.0)
    ensures 9.0 * x * w as real + 100000.0 * c as real < 10.0 * (w * e) as real <==>
            1000000 * (leverage * c) < w * e * (10 * leverage + 81)
  {
    ProductOfReals(w, e);
    EstimateComparison(x, w as real, e as real, leverage as real, c as real);
    EstimateInReals(w * e, leverage, c);
  }

  lemma EstimateInReals(n: nat, leverage: nat, collateral: nat)
    ensures 1000000 * (leverage * collateral) < n * (10 * leverage + 81) <==>
            1000000.0 * (leverage as real * collateral as real) < n as real * (10.0 * leverage as real + 81.0)
  {
    ProductOfReals(leverage, collateral);
    ProductOfReals(n, 10 * leverage + 81);
  }

  lemma EstimateComparison(x: real, w: real, e: real, l: real, c: real)
    requires l >= 1.0 && x * (10.0 * l) == e * (10.0 * l - 9.0)
    ensures 9.0 * x * w + 100000.0 * c < 10.0 * (w * e) <==> 1000000.0 * (l * c) < w * e * (10.0 * l + 81.0)
  {
    var gap := 10.0 * (w * e) - 9.0 * x * w - 100000.0 * c;
    assert 9.0 * x * w * (10.0 * l) == 9.0 * w * (x * (10.0 * l));
    assert 9.0 * w * (e * (10.0 * l - 9.0)) == 90.0 * (w * e * l) - 81.0 * (w * e);
    assert gap * (10.0 * l) == 100.0 * (w * e * l) - (90.0 * (w * e * l) - 81.0 * (w * e)) - 1000000.0 * (l * c);
    assert w * e * (10.0 * l + 81.0) == 10.0 * (w * e * l) + 81.0 * (w * e);
    SignOfProduct(gap, 10.0 * l);
  }

  /** So the estimate is too low for every new long whose collateral needed no rounding. */
  lemma StoredEstimateIsLow(shares: nat, price: Bps, leverage: nat, collateral: nat, quoteDecimals: nat)
    requires shares > 0 && price > 0 && leverage >= 2
    requires collateral * 10000 * leverage == ScaledNotional(shares, price, quoteDecimals)
    ensures StoredEstimate(price, leverage) <
            RawLiquidationPrice(Holding(Long, Leveraged, shares, price, collateral), quoteDecimals)
  {
    PositiveNotional(shares, price, QuoteScale(quoteDecimals));
    LeverageMargin(ScaledNotional(shares, price, quoteDecimals), leverage, collateral);
    StoredEstimateExactly(shares, price, leverage, collateral, quoteDecimals);
  }

  lemma LeverageMargin(n: nat, l: nat, c: nat)
    requires n > 0 && l >= 2 && c * 10000 * l == n
    ensures 1000000 * (l * c) < n * (10 * l + 81)
  {
    var lc := l * c;
    assert n == 10000 * lc;
    ProductAtLeast(n, 10 * l - 19);
    SumTimes(10 * l - 19, 100, n);
  }

  lemma PositiveNotional(shares: nat, price: nat, scale: nat)
    requires shares > 0 && price > 0 && scale > 0
    ensures shares * price * scale > 0
  {
    ProductAtLeast(shares, price);
    ProductAtLeast(shares * price, scale);
  }

  /** For every new long above one per cent, with leverage two or more and a hundred thousand
      quote units of shares, the stored price is strictly below the one that liquidates. */
  lemma StoredPriceIsLow(shares: nat, price: Bps, leverage: nat, quoteDecimals: nat)
    requires leverage >= 2 && price > 100 && shares * QuoteScale(quoteDecimals) >= 100000 && shares > 0
    ensures var c := SplitOnCreate(shares, price, leverage, quoteDecimals).collateral;
            c >= 0 && StoredPrice(price, leverage) as real <
                      RawLiquidationPrice(Holding(Long, Leveraged, shares, price, c), quoteDecimals)
  {
    var w := shares * QuoteScale(quoteDecimals);
    var c := RoundDiv(ScaledNotional(shares, price, quoteDecimals), 10000 * leverage);
    NonNegativeQuotient(c, 10000 * leverage, ScaledNotional(shares, price, quoteDecimals));
    NotionalInReals(shares, price, QuoteScale(quoteDecimals));
    StoredPriceRounds(price, leverage);
    StoredPriceExactly(shares, price, leverage, c, quoteDecimals);
    RoomForBothRoundings(w, price, leverage, c, StoredPrice(price, leverage));
  }

  lemma NonNegativeQuotient(r: int, d: int, n: nat)
    requires d > 0 && -d < 2 * (r * d - n)
    ensures r >= 0
  {
    if r < 0 {
      MultiplesApart(r, 0, d);
    }
  }

  lemma RoomForBothRoundings(w: nat, e: nat, l: nat, c: int, p: int)
    requires w >= 100000 && e > 100 && l >= 2
    requires 2 * (c * (10000 * l) - w * e) <= 10000 * l
    requires 2 * (p * (10 * l) - e * (10 * l - 9)) <= 10 * l
    ensures 100000 * c < w * (10 * e - 9 * p)
  {
    var le, lp := l * e, l * p;
    assert p * (10 * l) == 10 * lp && e * (10 * l - 9) == 10 * le - 9 * e;
    assert 10 * lp <= 10 * le - 9 * e + 5 * l;
    assert le >= 101 * l by {
      assert l * (e - 101) >= 0;
    }
    assert 10 * (l * (10 * e - 9 * p)) == 100 * le - 90 * lp;
    var room := 10 * le - 19 * e - 45 * l;
    assert room >= 5 * l + 1 by {
      RoomIsLeft(e, l);
    }
    ScaleRoom(w, room, 5 * l + 1, 10 * (l * (10 * e - 9 * p)) - 100 * e);
    Descale(w, e, l, c, 10 * e - 9 * p);
  }

  lemma RoomIsLeft(e: nat, l: nat)
    requires e > 100 && l >= 2
    ensures 10 * (l * e) - 19 * e - 45 * l >= 5 * l + 1
  {
    var b := 10 * l - 19;
    ProductAtLeast(e - 101, b);
    SumTimes(e - 101, 101, b);
    assert e * b == 10 * (l * e) - 19 * e;
  }

  lemma ScaleRoom(w: nat, room: int, least: int, more: int)
    requires w >= 100000 && room >= least >= 0 && more >= room
    ensures w * more >= 100000 * least
  {
    assert w * more >= w * least by {
      assert w * (more - least) >= 0;
    }
    assert (w - 100000) * least >= 0;
  }

  lemma Descale(w: nat, e: nat, l: nat, c: int, rest: int)
    requires l >= 2 && 2 * (c * (10000 * l) - w * e) <= 10000 * l
    requires w * (10 * (l * rest) - 100 * e) >= 100000 * (5 * l + 1)
    ensures 100000 * c < w * rest
  {
    assert c * (10000 * l) == 10000 * (l * c);
    assert w * (10 * (l * rest) - 100 * e) == 10 * (l * (w * rest)) - 100 * (w * e);
    assert 10 * (l * (w * rest)) > 1000000 * (l * c);
    assert l * (w * rest - 100000 * c) > 0;
  }

  /** Outside that range rounding can lift the stored price above it: at one basis point the
      price that liquidates is five ninths and one is stored. */
  lemma StoredPriceCanBeHigh()
    ensures var c := SplitOnCreate(200000, 1, 2, 6).collateral;
            c == 10 && StoredPrice(1, 2) == 1
            && RawLiquidationPrice(Holding(Long, Leveraged, 200000, 1, 10), 6) == 5.0 / 9.0
  {
    assert ScaledNotional(200000, 1, 6) == 200000;
    assert ShareCollateral(Holding(Long, Leveraged, 200000, 1, 10), 6) == 10.0;
    assert SolvedPrice(Long, 1.0, 200000.0, 10.0) == 100000.0 / 180000.0;
  }
}
