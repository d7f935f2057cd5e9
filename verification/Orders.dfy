/** Order rows as the database stores them (backend/src/models/Order.ts), together with
    the rounding that the services apply to them. An order's id is its position in the
    table: rows are appended on creation and never removed. */
module Orders {

  datatype Option<+T> = None | Some(value: T) {
    function GetOr(default: T): T {
      if Some? then value else default
    }
  }

  datatype Result<+T> = Ok(value: T) | Err(error: string)

  datatype Side = Buy | Sell

  datatype Kind = MarketOrder | LimitOrder

  datatype Token = Yes | No

  datatype Status = Pending | Open | PartiallyFilled | Filled | Cancelled

  type Bps = nat

  datatype Order = Order(
    side: Side,
    kind: Kind,
    price: Bps,
    size: nat,
    filled: nat,
    avgFillPrice: Option<nat>,
    status: Status,
    token: Option<Token>,
    user: string,
    createdAt: nat
  )

  type Table = seq<Order>

  function Remaining(o: Order): int {
    o.size - o.filled
  }

  /** Orders stored without a token type count as YES orders. */
  function TokenOf(o: Order): Token {
    match o.token
    case Some(t) => t
    case None => Yes
  }

  /** The statuses that every order book query selects. */
  predicate IsOpenStatus(s: Status) {
    s.Open? || s.PartiallyFilled? || s.Pending?
  }

  /** An order that can still trade: selected by the queries and not exhausted. */
  predicate Live(o: Order) {
    IsOpenStatus(o.status) && Remaining(o) > 0
  }

  function Min(a: int, b: int): int {
    if a < b then a else b
  }

  function Max(a: int, b: int): int {
    if a < b then b else a
  }

  /** Math.round(n / d) for a positive d: the nearest integer, halves upwards. */
  function RoundDiv(n: int, d: int): (r: int)
    requires d > 0
    ensures -d < 2 * (r * d - n) <= d
  {
    RoundDivNearest(n, d);
    (2 * n + d) / (2 * d)
  }

  lemma RoundDivNearest(n: int, d: int)
    requires d > 0
    ensures var r := (2 * n + d) / (2 * d); -d < 2 * (r * d - n) <= d
  {
    var r := (2 * n + d) / (2 * d);
    var m := (2 * n + d) % (2 * d);
    assert 2 * n + d == r * (2 * d) + m;
    assert r * (2 * d) == 2 * (r * d);
  }

  /** Distinct multiples of d are at least d apart. */
  lemma MultiplesApart(lo: int, hi: int, d: nat)
    ensures lo < hi ==> lo * d + d <= hi * d
  {
    if lo < hi {
      var gap := hi - lo - 1;
      assert hi * d == (lo + 1 + gap) * d == lo * d + d + gap * d;
    }
  }

  function Pow10(n: nat): (p: nat)
    ensures p >= 1
  {
    if n == 0 then 1 else 10 * Pow10(n - 1)
  }

  /** How many quote base units one share base unit is worth: shares always carry six
      decimals, the quote token carries `quoteDecimals`. */
  function QuoteScale(quoteDecimals: nat): (k: nat)
    ensures k >= 1
  {
    Pow10(if quoteDecimals >= 6 then quoteDecimals - 6 else 0)
  }

  /** What comes before the last element of a concatenation. */
  lemma ConcatInit<T>(a: seq<T>, b: seq<T>)
    requires b != []
    ensures var all := a + b;
            all[..|all| - 1] == a + b[..|b| - 1] && all[|all| - 1] == b[|b| - 1]
  {
  }

  lemma AppendInit<T>(a: seq<T>, x: T)
    ensures (a + [x])[..|a + [x]| - 1] == a && (a + [x])[|a + [x]| - 1] == x
  {
  }
}
