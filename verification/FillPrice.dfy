/** The integer average fill price that a fill folds into an order row
    (backend/src/services/orderKeeperService.ts:1371-1381). */
module FillPrice {
  import opened Orders

  datatype Fill = Fill(price: Bps, size: nat)

  function Quantity(fills: seq<Fill>): nat {
    if fills == [] then 0 else Quantity(fills[..|fills| - 1]) + fills[|fills| - 1].size
  }

  /** Price times size, summed: the exact mean is Notional / Quantity. */
  function Notional(fills: seq<Fill>): nat {
    if fills == [] then 0
    else
      var last := fills[|fills| - 1];
      Notional(fills[..|fills| - 1]) + last.price * last.size
  }

  /** One folding step: a row already filled by `filled` at stored average `avg` takes a
      further `size` at `price`. */
  function Fold(avg: nat, filled: nat, price: Bps, size: nat): nat
    requires size > 0
  {
    if filled > 0 then
      RoundNonNegative(avg * filled + price * size, filled + size);
      RoundDiv(avg * filled + price * size, filled + size)
    else price
  }

  lemma RoundNonNegative(n: nat, d: nat)
    requires d > 0
    ensures RoundDiv(n, d) >= 0
  {
  }

  ghost predicate AllPositive(fills: seq<Fill>) {
    forall i :: 0 <= i < |fills| ==> fills[i].size > 0
  }

  /** The stored average after all fills, each step rounded. */
  function StoredAverage(fills: seq<Fill>): nat
    requires AllPositive(fills)
  {
    if fills == [] then 0
    else
      var n := |fills| - 1;
      Fold(StoredAverage(fills[..n]), Quantity(fills[..n]), fills[n].price, fills[n].size)
  }

  lemma {:induction false} QuantityPositive(fills: seq<Fill>)
    requires AllPositive(fills)
    ensures Quantity(fills) > 0 <==> fills != []
  {
  }

  /** A weighted sum of two integers in a range is bracketed by the range. */
  lemma MixBracketed(a: nat, f: nat, p: nat, q: nat, lo: nat, hi: nat)
    requires lo <= a <= hi && lo <= p <= hi
    ensures lo * (f + q) <= a * f + p * q <= hi * (f + q)
  {
    assert (a - lo) * f >= 0 && (p - lo) * q >= 0;
    assert (hi - a) * f >= 0 && (hi - p) * q >= 0;
    assert (a - lo) * f == a * f - lo * f && (p - lo) * q == p * q - lo * q;
    assert (hi - a) * f == hi * f - a * f && (hi - p) * q == hi * q - p * q;
    assert lo * (f + q) == lo * f + lo * q && hi * (f + q) == hi * f + hi * q;
  }

  /** The stored average never leaves the range of the prices that were filled. */
  lemma {:induction false} AverageBetween(fills: seq<Fill>, lo: nat, hi: nat)
    requires fills != [] && AllPositive(fills)
    requires forall i :: 0 <= i < |fills| ==> lo <= fills[i].price <= hi
    ensures lo <= StoredAverage(fills) <= hi
  {
    var n := |fills| - 1;
    if n > 0 {
      AverageBetween(fills[..n], lo, hi);
      QuantityPositive(fills[..n]);
      var a, f, p, q := StoredAverage(fills[..n]), Quantity(fills[..n]), fills[n].price, fills[n].size;
      MixBracketed(a, f, p, q, lo, hi);
      MultiplesApart(RoundDiv(a * f + p * q, f + q), lo, f + q);
      MultiplesApart(hi, RoundDiv(a * f + p * q, f + q), f + q);
    }
  }

  function Abs(x: int): nat {
    if x < 0 then -x else x
  }

  /** One rounding adds at most half a unit to the error carried so far. */
  lemma ErrorGrowsByHalf(r: int, a: int, f: nat, s: int, x: int, q: nat, m: nat)
    requires -(f + q) < 2 * (r * (f + q) - (a * f + x)) <= f + q
    requires 2 * Abs(a * f - s) <= m * f
    ensures 2 * Abs(r * (f + q) - (s + x)) <= (m + 1) * (f + q)
  {
    assert m * f <= m * (f + q) by {
      assert m * (f + q) == m * f + m * q && m * q >= 0;
    }
    assert (m + 1) * (f + q) == m * (f + q) + (f + q);
  }

  /** |avg - mean| <= (n - 1) / 2 for n fills, cleared of its denominators. */
  predicate NearMean(avg: nat, fills: seq<Fill>) {
    2 * Abs(avg * Quantity(fills) - Notional(fills)) <= (|fills| - 1) * Quantity(fills)
  }

  /** Rounding once per fill costs at most half a basis point per fill after the first. */
  lemma {:induction false} AverageNearMean(fills: seq<Fill>)
    requires fills != [] && AllPositive(fills)
    ensures NearMean(StoredAverage(fills), fills)
  {
    var n := |fills| - 1;
    var q0, a0, s0 := Quantity(fills[..n]), StoredAverage(fills[..n]), Notional(fills[..n]);
    var p, q := fills[n].price, fills[n].size;
    if n == 0 {
      assert fills[..n] == [];
      assert StoredAverage(fills) == p && Quantity(fills) == q && Notional(fills) == p * q;
    } else {
      AverageNearMean(fills[..n]);
      QuantityPositive(fills[..n]);
      ErrorGrowsByHalf(RoundDiv(a0 * q0 + p * q, q0 + q), a0, q0, s0, p * q, q, n - 1);
    }
  }

  /** The bound is met: rounding does move the stored price off the exact mean. */
  lemma BoundIsTight()
    ensures var fills := [Fill(1, 1), Fill(2, 1)];
            AllPositive(fills)
            && 2 * Abs(StoredAverage(fills) * Quantity(fills) - Notional(fills)) == (|fills| - 1) * Quantity(fills)
  {
    var fills := [Fill(1, 1), Fill(2, 1)];
    assert fills[..1] == [Fill(1, 1)];
    assert fills[..1][..0] == [];
    assert Quantity(fills[..1]) == 1 && Notional(fills[..1]) == 1 && StoredAverage(fills[..1]) == 1;
  }

  /** Only two fills reach it: with three or more the error is strictly smaller, because what
      was carried over is diluted by the next fill. */
  lemma BoundIsStrictBeyondTwo(fills: seq<Fill>)
    requires |fills| >= 3 && AllPositive(fills)
    ensures 2 * Abs(StoredAverage(fills) * Quantity(fills) - Notional(fills)) < (|fills| - 1) * Quantity(fills)
  {
    var n := |fills| - 1;
    var q0, a0, s0 := Quantity(fills[..n]), StoredAverage(fills[..n]), Notional(fills[..n]);
    var p, q := fills[n].price, fills[n].size;
    var avg := RoundDiv(a0 * q0 + p * q, q0 + q);
    AverageNearMean(fills[..n]);
    LastFold(fills);
    ErrorDiluted(avg, a0, q0, s0, p * q, q, n - 1);
    assert 2 * Abs(avg * (q0 + q) - (s0 + p * q)) < n * (q0 + q);
  }

  /** The last fill of several is folded in by one rounding. */
  lemma LastFold(fills: seq<Fill>)
    requires |fills| >= 2 && AllPositive(fills)
    ensures var n := |fills| - 1;
            var q0, a0 := Quantity(fills[..n]), StoredAverage(fills[..n]);
            && q0 > 0 && Quantity(fills) == q0 + fills[n].size
            && Notional(fills) == Notional(fills[..n]) + fills[n].price * fills[n].size
            && StoredAverage(fills) == RoundDiv(a0 * q0 + fills[n].price * fills[n].size, q0 + fills[n].size)
  {
    QuantityPositive(fills[..|fills| - 1]);
  }

  lemma ErrorDiluted(r: int, a: int, f: nat, s: int, x: int, q: nat, m: nat)
    requires -(f + q) < 2 * (r * (f + q) - (a * f + x)) <= f + q
    requires 2 * Abs(a * f - s) <= m * f && q > 0 && m > 0
    ensures 2 * Abs(r * (f + q) - (s + x)) < (m + 1) * (f + q)
  {
    assert m * f < m * (f + q) by {
      assert m * (f + q) == m * f + m * q && m * q > 0;
    }
    assert (m + 1) * (f + q) == m * (f + q) + (f + q);
  }
}
