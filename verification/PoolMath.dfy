/** programs/deep_pool/src/math.rs: fee, curve, LP shares, the Q64.64 price and the
    integer square root. `None` is an overflow or a division by zero. */
module PoolMath {
  import opened Wrappers
  import opened Numbers

  const SWAP_FEE_BPS: u64 := 25
  const FEE_DENOMINATOR: u64 := 10000
  const TWO_63: int := 0x8000_0000_0000_0000

  // ----- swap fee and curve -----

  function CalcSwapFee(amount: u64): Option<u64> {
    if amount == 0 then Some(0)
    else
      var product :- ToU64(amount * SWAP_FEE_BPS);
      Some(Max(product / FEE_DENOMINATOR, 1))
  }

  function CalcSwapOutput(effectiveIn: u64, inputReserve: u64, outputReserve: u64): Option<u64> {
    var numerator :- ToU128(effectiveIn * outputReserve);
    var denominator :- ToU128(inputReserve + effectiveIn);
    var quotient :- CheckedDiv(numerator, denominator);
    Some(Truncate64(quotient))
  }

  // ----- liquidity shares -----

  function CalcLpMint(lpSupply: u64, deposit: u64, reserve: u64): Option<u64> {
    var numerator :- ToU128(lpSupply * deposit);
    var quotient :- CheckedDiv(numerator, reserve);
    ToU64(quotient)
  }

  function CalcLpRedeem(lpAmount: u64, reserve: u64, lpSupply: u64): Option<u64> {
    var numerator :- ToU128(lpAmount * reserve);
    var quotient :- CheckedDiv(numerator, lpSupply);
    ToU64(quotient)
  }

  function CalcProportionalCeil(input: u64, reserveA: u64, reserveB: u64): Option<u64> {
    var numerator :- ToU128(input * reserveB);
    var round :- ToU128(reserveA - 1);
    var rounded :- ToU128(numerator + round);
    var quotient :- CheckedDiv(rounded, reserveA);
    ToU64(quotient)
  }

  // ----- price -----

  function PriceQ64(reserveOut: u64, reserveIn: u64): Option<u128> {
    CheckedDiv(reserveOut * TWO_64, reserveIn)
  }

  function AccumulatePrice(cum: u128, price: u128, slotDelta: u64): u128 {
    WrappingAdd(cum, WrappingMul(price, slotDelta))
  }

  // ----- what the fee means -----

  /** The fee exists exactly while amount * 25 fits 64 bits. It is a quarter percent, rounded
      down but never below one unit, and never more than the amount, so the part that trades
      does not underflow and is always smaller than what was paid. */
  lemma SwapFeeBounds(amount: u64)
    requires amount > 0
    ensures CalcSwapFee(amount).None? <==> amount * 25 > U64_MAX
    ensures CalcSwapFee(amount).Some? ==>
              var fee := CalcSwapFee(amount).value;
              && 1 <= fee <= amount
              && (fee == 1 || fee * 10_000 <= amount * 25)
              && amount * 25 < (fee + 1) * 10_000
  {
  }

  /** Paying in more never leaves less to trade. */
  lemma EffectiveInMonotone(a: u64, b: u64)
    requires a <= b
    requires CalcSwapFee(a).Some? && CalcSwapFee(b).Some?
    ensures a - CalcSwapFee(a).value <= b - CalcSwapFee(b).value
  {
    if 0 < a < b {
      var fa, fb := a * SWAP_FEE_BPS / FEE_DENOMINATOR, b * SWAP_FEE_BPS / FEE_DENOMINATOR;
      assert fb * 10000 <= b * 25 && a * 25 < fa * 10000 + 10000;
      assert (fb - fa) * 10000 < (b - a) * 25 + 10000;
      assert fb - fa <= b - a;
    }
  }

  // ----- what the curve means -----

  /** A share e of a total d > e takes less than all of a positive y. */
  lemma ShareBelowWhole(e: nat, d: nat, y: nat)
    requires e < d
    ensures y > 0 ==> e * y / d < y
    ensures y == 0 ==> e * y / d == 0
  {
    if y > 0 {
      MulStrict(e, d, y);
      DivBelow(e * y, d, y);
    }
  }

  /** With a non-empty input side the output is the exact floor of e*y / (x + e): no step
      overflows and the narrowing cast drops no bits. */
  lemma SwapOutputFloor(e: u64, x: u64, y: u64) returns (out: u64)
    requires x > 0
    ensures CalcSwapOutput(e, x, y) == Some(out)
    ensures out * (x + e) <= e * y < out * (x + e) + (x + e)
    ensures y > 0 ==> out < y
    ensures out <= y
  {
    ProductFits(e, y);
    ShareBelowWhole(e, x + e, y);
    var n, d := e * y, x + e;
    FloorDiv(n, d);
    out := n / d;
    assert Truncate64(out) == out;
  }

  /** The traded part alone keeps the product of the reserves, whatever is left on top only
      adds to it. */
  lemma SwapKeepsProduct(x: nat, y: nat, gross: nat, e: nat, out: nat)
    requires e < gross && out < y
    requires out * (x + e) <= e * y
    ensures (x + gross) * (y - out) > x * y
    ensures (y - out) * (x + gross) > y * x
  {
    assert (x + e) * (y - out) == (x + e) * y - out * (x + e);
    assert (x + e) * y == x * y + e * y;
    MulStrict(x + e, x + gross, y - out);
  }

  /** e/(x+e) grows with e. */
  lemma ShareMonotone(d: nat, e: nat, x: nat, y: nat)
    requires x > 0 && d <= e
    ensures d * y / (x + d) <= e * y / (x + e)
  {
    var p := d * y / (x + d);
    FloorDiv(d * y, x + d);
    if d > 0 {
      // p <= y, so p*(x+e) = p*(x+d) + p*(e-d) <= d*y + y*(e-d) = e*y
      ShareBelowWhole(d, x + d, y);
      MulMono(p, y, e - d);
      assert p * (x + e) == p * (x + d) + p * (e - d);
      assert e * y == d * y + y * (e - d);
      DivAtLeast(e * y, x + e, p);
    } else {
      DivIs(0, x, 0);
      FloorDiv(e * y, x + e);
    }
  }

  /** The output is the most that keeps the product of the reserves on the traded input: one unit
      more would break it. */
  lemma SwapOutputTight(e: u64, x: u64, y: u64, out: u64)
    requires x > 0 && CalcSwapOutput(e, x, y) == Some(out)
    ensures (x + e) * (y - out) >= x * y > (x + e) * (y - out - 1)
  {
    var floor := SwapOutputFloor(e, x, y);
    assert (x + e) * (y - out) == x * y + e * y - out * (x + e);
    assert (x + e) * (y - out - 1) == x * y + e * y - out * (x + e) - (x + e);
  }

  lemma SwapOutputMonotone(d: u64, e: u64, x: u64, y: u64)
    requires x > 0 && d <= e
    ensures CalcSwapOutput(d, x, y).Some? && CalcSwapOutput(e, x, y).Some?
    ensures CalcSwapOutput(d, x, y).value <= CalcSwapOutput(e, x, y).value
  {
    var p := SwapOutputFloor(d, x, y);
    var q := SwapOutputFloor(e, x, y);
    DivIs(d * y, x + d, p);
    DivIs(e * y, x + e, q);
    ShareMonotone(d, e, x, y);
  }

  // ----- what the share formulas mean -----

  /** Floor of a product over a reserve, `None` exactly when it does not fit 64 bits. */
  lemma LpMintFloor(supply: u64, deposit: u64, reserve: u64)
    requires reserve > 0
    ensures CalcLpMint(supply, deposit, reserve) == ToU64(supply * deposit / reserve)
    ensures CalcLpMint(supply, deposit, reserve).Some? ==>
              var m := CalcLpMint(supply, deposit, reserve).value;
              m * reserve <= supply * deposit < m * reserve + reserve
  {
    ProductFits(supply, deposit);
    FloorDiv(supply * deposit, reserve);
  }

  /** A part amount of a whole supply takes at most all of a reserve. */
  lemma PartAtMostWhole(amount: nat, reserve: nat, supply: nat)
    requires 0 < supply && amount <= supply
    ensures 0 <= amount * reserve / supply <= reserve
  {
    MulMono(amount, supply, reserve);
    FloorDiv(amount * reserve, supply);
    DivIs(reserve * supply, supply, reserve);
    DivMono(amount * reserve, reserve * supply, supply);
  }

  /** Redeeming no more than the whole supply always succeeds and pays the floor of the share. */
  lemma LpRedeemFloor(amount: u64, reserve: u64, supply: u64) returns (out: u64)
    requires supply > 0 && amount <= supply
    ensures CalcLpRedeem(amount, reserve, supply) == Some(out)
    ensures out * supply <= amount * reserve < out * supply + supply
    ensures out <= reserve
  {
    ProductFits(amount, reserve);
    var n := amount * reserve;
    PartAtMostWhole(amount, reserve, supply);
    FloorDiv(n, supply);
    out := n / supply;
  }

  /** The ceiling charge covers the proportional share and exceeds it by less than one unit. */
  lemma ProportionalCeil(input: u64, a: u64, b: u64)
    requires a > 0
    ensures CalcProportionalCeil(input, a, b) == ToU64((input * b + a - 1) / a)
    ensures CalcProportionalCeil(input, a, b).Some? ==>
              var c := CalcProportionalCeil(input, a, b).value;
              input * b <= c * a < input * b + a
  {
    ProductFits(input, b);
    FloorDiv(input * b + a - 1, a);
  }

  lemma ProportionalCeilMonotone(i: u64, j: u64, a: u64, b: u64)
    requires a > 0 && i <= j
    requires CalcProportionalCeil(j, a, b).Some?
    ensures CalcProportionalCeil(i, a, b).Some?
    ensures CalcProportionalCeil(i, a, b).value <= CalcProportionalCeil(j, a, b).value
  {
    ProportionalCeil(i, a, b);
    ProportionalCeil(j, a, b);
    hide CalcProportionalCeil;
    MulBounds(i, b, j, b);
    CeilOrder(i * b, j * b, a);
  }

  lemma CeilOrder(m: nat, n: nat, a: nat)
    requires a > 0 && m <= n
    ensures 0 <= (m + a - 1) / a <= (n + a - 1) / a
  {
    FloorDiv(m + a - 1, a);
    DivMono(m + a - 1, n + a - 1, a);
  }

  // ----- price -----

  /** The price exists exactly on a non-zero input reserve, and the shift never overflows. */
  lemma PriceQ64Floor(reserveOut: u64, reserveIn: u64)
    ensures PriceQ64(reserveOut, reserveIn).Some? <==> reserveIn > 0
    ensures reserveIn > 0 ==>
              var p := PriceQ64(reserveOut, reserveIn).value;
              p * reserveIn <= reserveOut * TWO_64 < p * reserveIn + reserveIn
  {
    if reserveIn > 0 {
      FloorDiv(reserveOut * TWO_64, reserveIn);
    }
  }

  // ----- integer square root -----

  /** The floored square root, by definition. */
  function FloorSqrt(n: nat): (r: nat)
    ensures r * r <= n < (r + 1) * (r + 1)
  {
    if n == 0 then 0
    else
      var r := FloorSqrt(n - 1);
      if (r + 1) * (r + 1) <= n then r + 1 else r
  }

  lemma FloorSqrtUnique(n: nat, r: nat)
    requires r * r <= n < (r + 1) * (r + 1)
    ensures r == FloorSqrt(n)
  {
    SquareMonotone(n, n, r, FloorSqrt(n));
    SquareMonotone(n, n, FloorSqrt(n), r);
  }

  /** A root never exceeds a root of something larger. */
  lemma SquareMonotone(m: nat, n: nat, r: nat, s: nat)
    requires m <= n
    requires r * r <= m && n < (s + 1) * (s + 1)
    ensures r <= s
  {
    if s + 1 <= r {
      MulBounds(s + 1, s + 1, r, r);
    }
  }

  lemma FloorSqrtMonotone(m: nat, n: nat)
    requires m <= n
    ensures FloorSqrt(m) <= FloorSqrt(n)
  {
    SquareMonotone(m, n, FloorSqrt(m), FloorSqrt(n));
  }

  /** Four times a product is at most the square of the sum. */
  lemma ArithmeticGeometric(a: int, b: int)
    ensures 4 * (a * b) <= (a + b) * (a + b)
  {
    assert (a + b) * (a + b) - 4 * (a * b) == (a - b) * (a - b);
  }

  /** Every Newton step stays at or above the root. */
  lemma NewtonStep(n: nat, x: nat)
    requires n > 0 && x > 0
    ensures n < ((x + n / x) / 2 + 1) * ((x + n / x) / 2 + 1)
  {
    FloorDiv(n, x);
    NewtonBound(n, x, n / x, (x + n / x) / 2);
  }

  lemma NewtonBound(n: nat, x: nat, q: nat, y: nat)
    requires n < q * x + x && x + q + 1 <= 2 * (y + 1)
    ensures n < (y + 1) * (y + 1)
  {
    // n < x*(q+1) and 4*x*(q+1) <= (x+q+1)^2 <= (2*(y+1))^2
    assert q * x + x == x * (q + 1);
    ArithmeticGeometric(x, q + 1);
    MulBounds(x + (q + 1), x + (q + 1), 2 * (y + 1), 2 * (y + 1));
    assert (2 * (y + 1)) * (2 * (y + 1)) == 4 * ((y + 1) * (y + 1));
  }

  /** Newton's method on u128. `None` stands for the overflow panic of `x + 1`, and the
      bounds of the u128 locals show that no other operation can leave 128 bits. */
  method IntegerSqrt(n: u128) returns (r: Option<u128>)
    ensures r.None? <==> n == U128_MAX
    ensures r.Some? ==> r.value == FloorSqrt(n)
  {
    if n == 0 {
      return Some(0);
    }
    var x: u128 := n;
    if x == U128_MAX {
      return None;
    }
    var increment: u128 := x + 1;
    var y: u128 := increment / 2;
    DivIs(n, n, 1);
    NewtonStep(n, n);
    while y < x
      invariant 0 < x <= n && 0 < y
      invariant y == (x + n / x) / 2
      invariant n < (x + 1) * (x + 1)
      decreases x
    {
      NewtonStep(n, x);
      x := y;
      QuotientShrinks(n, x);
      NewtonSumFits(n, x);
      DivAtLeast(n, x, 1);
      var sum: u128 := x + n / x;
      y := sum / 2;
    }
    // y >= x forces n / x >= x, hence x*x <= n
    FloorDiv(n, x);
    MulMono(x, n / x, x);
    FloorSqrtUnique(n, x);
    r := Some(x);
  }

  /** x + n/x never exceeds n + 1 for 1 <= x <= n. */
  lemma NewtonSumFits(n: nat, x: nat)
    requires 0 < x <= n
    ensures x + n / x <= n + 1
  {
    FloorDiv(n, x);
    DivAtLeast(n, x, 1);
    SumFits(n, x, n / x);
  }

  lemma SumFits(n: nat, x: nat, q: nat)
    requires x > 0 && q > 0 && q * x <= n
    ensures x + q <= n + 1
  {
    // (x-1)*(q-1) >= 0
    MulMono(0, q - 1, x - 1);
    assert (q - 1) * (x - 1) == q * x - q - x + 1;
  }
}
