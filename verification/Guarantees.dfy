/** What the pool's invariants mean for traders, for providers and for the locked floor. */
module Guarantees {
  import opened Wrappers
  import opened Numbers
  import opened PoolMath
  import opened Oracle
  import opened Ledger
  import opened Depth
  import opened Solvency

  // ----- every instruction pays in full and keeps to its limits -----

  /** An accepted swap charges the quarter-percent fee on what reached the pool and pays out the
      most that keeps the product on the rest, at least the minimum asked for. */
  lemma SwapPaysInFull(p: Pool, args: SwapArgs, now: u64, net: u64, q: Pool, m: SwapMetrics)
    requires p.oracle.WellFormed() && p.rent <= p.lamports
    requires Swap(p, args, now, net) == Success((q, m))
    ensures m.amountOutGross >= args.minimumOut && m.amountOutNet <= m.amountOutGross
    ensures m.amountInNet == (if args.buy then args.amountIn else net) > 0
    ensures CalcSwapFee(m.amountInNet) == Some(m.fee) && 1 <= m.fee <= m.amountInNet
    ensures var e := m.amountInNet - m.fee;
            var (x, y) := if args.buy then (p.SolReserve(), p.vault) else (p.vault, p.SolReserve());
            (x + e) * (y - m.amountOutGross) >= x * y > (x + e) * (y - m.amountOutGross - 1)
  {
    hide Swap, CalcSwapFee, CalcSwapOutput;
    SwapParts(p, args, now, net, q, m);
    SwapFeeBounds(m.amountInNet);
    if args.buy {
      SwapOutputTight(m.amountInNet - m.fee, p.SolReserve(), p.vault, m.amountOutGross);
    } else {
      SwapOutputTight(m.amountInNet - m.fee, p.vault, p.SolReserve(), m.amountOutGross);
    }
  }

  lemma SwapParts(p: Pool, args: SwapArgs, now: u64, net: u64, q: Pool, m: SwapMetrics)
    requires p.oracle.WellFormed() && p.rent <= p.lamports
    requires Swap(p, args, now, net) == Success((q, m))
    ensures p.SolReserve() > 0 && p.vault > 0
    ensures m.amountOutGross >= args.minimumOut && m.amountOutNet <= m.amountOutGross
    ensures m.amountInNet == (if args.buy then args.amountIn else net) > 0
    ensures CalcSwapFee(m.amountInNet) == Some(m.fee) && m.fee <= m.amountInNet
    ensures CalcSwapOutput(m.amountInNet - m.fee,
                           if args.buy then p.SolReserve() else p.vault,
                           if args.buy then p.vault else p.SolReserve()) == Some(m.amountOutGross)
  {
    hide Record, CalcSwapFee, CalcSwapOutput;
  }

  /** An accepted deposit charges the least SOL that covers its share and mints the most LP that
      its share allows, within both of the provider's limits. */
  lemma AddIsExact(p: Pool, provider: Holder, args: AddArgs, net: u64, q: Pool, m: AddMetrics)
    requires p.rent <= p.lamports
    requires Add(p, provider, args, net) == Success((q, m))
    ensures 0 < net <= args.tokenAmount && m.solIn <= args.maxSolAmount
    ensures (m.solIn - 1) * p.vault < net * p.SolReserve() <= m.solIn * p.vault
    ensures var minted := m.lpToProvider + m.lpLocked;
            && minted >= args.minLpOut
            && minted * p.vault <= p.supply * net < (minted + 1) * p.vault
  {
    AddGrowsShares(p, provider, args, net, q, m);
    AddParts(p, provider, args, net, q, m);
    hide Add;
    ProportionalCeil(net, p.vault, p.SolReserve());
    LpMintFloor(p.supply, net, p.vault);
    hide CalcProportionalCeil, CalcLpMint, SharesGrow;
    OneMore(m.solIn, p.vault);
    OneMore(m.lpToProvider + m.lpLocked, p.vault);
  }

  lemma AddParts(p: Pool, provider: Holder, args: AddArgs, net: u64, q: Pool, m: AddMetrics)
    requires Add(p, provider, args, net) == Success((q, m))
    ensures p.vault > 0 && p.SolReserve() > 0 && p.supply > 0 && 0 < net <= args.tokenAmount
    ensures CalcProportionalCeil(net, p.vault, p.SolReserve()) == Some(m.solIn)
    ensures m.lpToProvider + m.lpLocked >= args.minLpOut && m.lpToProvider > 0
    ensures m.lpToProvider + m.lpLocked <= U64_MAX
    ensures CalcLpMint(p.supply, net, p.vault) == Some(m.lpToProvider + m.lpLocked)
    ensures m.lpLocked == ProviderLock(m.lpToProvider + m.lpLocked)
  {
    hide CalcProportionalCeil, CalcLpMint;
  }

  /** An accepted redemption pays the floor of the share on both sides, at least both minimums,
      and leaves the retention floor behind. */
  lemma RemoveIsExact(p: Pool, provider: Holder, args: RemoveArgs, net: u64, q: Pool, m: RemoveMetrics)
    requires Alive(p)
    requires Remove(p, provider, args, net) == Success((q, m))
    ensures m.solOut * p.supply <= args.lpAmount * p.SolReserve() < (m.solOut + 1) * p.supply
    ensures m.tokensOutGross * p.supply <= args.lpAmount * p.vault < (m.tokensOutGross + 1) * p.supply
    ensures m.solOut >= args.minSolOut && m.tokensOutGross >= args.minTokensOut
    ensures m.tokensOutNet <= m.tokensOutGross
    ensures q.SolReserve() >= 100_000_000 && q.vault >= 1_000_000
  {
    BalanceBounded(p, provider);
    RemoveParts(p, provider, args, net, q, m);
    hide Remove, Alive, CalcLpRedeem;
    var _ := LpRedeemFloor(args.lpAmount, p.SolReserve(), p.supply);
    var _ := LpRedeemFloor(args.lpAmount, p.vault, p.supply);
    OneMore(m.solOut, p.supply);
    OneMore(m.tokensOutGross, p.supply);
  }

  lemma RemoveParts(p: Pool, provider: Holder, args: RemoveArgs, net: u64, q: Pool, m: RemoveMetrics)
    requires p.rent <= p.lamports && Remove(p, provider, args, net) == Success((q, m))
    ensures p.supply > 0 && args.lpAmount <= p.Balance(provider)
    ensures CalcLpRedeem(args.lpAmount, p.SolReserve(), p.supply) == Some(m.solOut)
    ensures CalcLpRedeem(args.lpAmount, p.vault, p.supply) == Some(m.tokensOutGross)
    ensures m.solOut >= args.minSolOut && m.tokensOutGross >= args.minTokensOut
    ensures m.tokensOutNet == net <= m.tokensOutGross
    ensures q.SolReserve() >= 100_000_000 && q.vault >= 1_000_000
  {
    hide CalcLpRedeem;
  }

  // ----- trading never extracts value -----

  /** Steps that neither mint nor redeem LP through the program. */
  predicate TradesOnly(steps: seq<Step>) {
    forall i :: 0 <= i < |steps| ==> !steps[i].AddStep? && !steps[i].RemoveStep?
  }

  /** At least one swap of the run was accepted. */
  predicate SomeSwapAccepted(p: Pool, steps: seq<Step>)
    requires p.oracle.WellFormed()
    decreases |steps|
  {
    && steps != []
    && (|| (steps[0].SwapStep? && Attempt(p, steps[0]).Success?)
        || SomeSwapAccepted(Apply(p, steps[0]), steps[1..]))
  }

  lemma TradeGrowsProduct(p: Pool, step: Step)
    requires p.oracle.WellFormed() && p.rent <= p.lamports
    requires !step.AddStep? && !step.RemoveStep?
    ensures Apply(p, step).rent <= Apply(p, step).lamports
    ensures Apply(p, step).SolReserve() * Apply(p, step).vault >= p.SolReserve() * p.vault
    ensures step.SwapStep? && Attempt(p, step).Success? ==>
              Apply(p, step).SolReserve() * Apply(p, step).vault > p.SolReserve() * p.vault
  {
    hide Swap, Add, Remove;
    var q := Apply(p, step);
    if step.SwapStep? && Attempt(p, step).Success? {
      SwapGrowsProduct(p, step.swap, step.now, step.net, q, Swap(p, step.swap, step.now, step.net).value.1);
    } else {
      MulBounds(p.SolReserve(), p.vault, q.SolReserve(), q.vault);
    }
  }

  lemma {:induction false} TradesGrowProduct(p: Pool, steps: seq<Step>)
    requires p.oracle.WellFormed() && p.rent <= p.lamports && TradesOnly(steps)
    ensures Run(p, steps).rent <= Run(p, steps).lamports
    ensures Run(p, steps).SolReserve() * Run(p, steps).vault >= p.SolReserve() * p.vault
    ensures SomeSwapAccepted(p, steps) ==>
              Run(p, steps).SolReserve() * Run(p, steps).vault > p.SolReserve() * p.vault
    decreases |steps|
  {
    hide Apply, Attempt;
    if steps != [] {
      TradeGrowsProduct(p, steps[0]);
      assert TradesOnly(steps[1..]);
      TradesGrowProduct(Apply(p, steps[0]), steps[1..]);
    }
  }

  /** No closed run of swaps, by any traders and with any donations and LP transfers between,
      extracts value: if the tokens end no higher the SOL ends strictly higher, and dually. */
  lemma NoExtraction(p: Pool, steps: seq<Step>)
    requires p.oracle.WellFormed() && p.rent <= p.lamports
    requires TradesOnly(steps) && SomeSwapAccepted(p, steps)
    ensures Run(p, steps).vault <= p.vault ==> Run(p, steps).SolReserve() > p.SolReserve()
    ensures Run(p, steps).SolReserve() <= p.SolReserve() ==> Run(p, steps).vault > p.vault
  {
    TradesGrowProduct(p, steps);
    var q := Run(p, steps);
    if q.vault <= p.vault && q.SolReserve() <= p.SolReserve() {
      MulBounds(q.SolReserve(), q.vault, p.SolReserve(), p.vault);
    }
  }

  /** Buying and selling back no more than was received returns strictly less SOL than was paid. */
  lemma BuyThenSellLoses(p: Pool, buy: SwapArgs, t1: u64, net1: u64, q: Pool, bought: SwapMetrics,
                         sell: SwapArgs, t2: u64, net2: u64, r: Pool, sold: SwapMetrics)
    requires p.oracle.WellFormed() && p.rent <= p.lamports && buy.buy && !sell.buy
    requires Swap(p, buy, t1, net1) == Success((q, bought)) && q.oracle.WellFormed()
    requires Swap(q, sell, t2, net2) == Success((r, sold))
    requires sell.amountIn <= bought.amountOutGross
    ensures sold.amountOutGross < buy.amountIn
  {
    hide Swap;
    SwapGrowsProduct(p, buy, t1, net1, q, bought);
    SwapGrowsProduct(q, sell, t2, net2, r, sold);
    if sold.amountOutGross >= buy.amountIn {
      MulBounds(r.SolReserve(), r.vault, p.SolReserve(), p.vault);
    }
  }

  /** Selling and buying back with no more than was received returns strictly fewer tokens than
      reached the vault. */
  lemma SellThenBuyLoses(p: Pool, sell: SwapArgs, t1: u64, net1: u64, q: Pool, sold: SwapMetrics,
                         buy: SwapArgs, t2: u64, net2: u64, r: Pool, bought: SwapMetrics)
    requires p.oracle.WellFormed() && p.rent <= p.lamports && buy.buy && !sell.buy
    requires Swap(p, sell, t1, net1) == Success((q, sold)) && q.oracle.WellFormed()
    requires Swap(q, buy, t2, net2) == Success((r, bought))
    requires buy.amountIn <= sold.amountOutGross
    ensures bought.amountOutGross < net1
  {
    hide Swap;
    SwapGrowsProduct(p, sell, t1, net1, q, sold);
    SwapGrowsProduct(q, buy, t2, net2, r, bought);
    if bought.amountOutGross >= net1 {
      MulBounds(r.SolReserve(), r.vault, p.SolReserve(), p.vault);
    }
  }

  // ----- the locked floor -----

  /** Whatever is added and removed, donated or burnt, and by whom: each reserve stays at or
      above the locked share of what it was, and the floor locked/L of a reserve only rises. */
  lemma LockedFloor(p: Pool, steps: seq<Step>)
    requires Alive(p) && NoSwaps(steps)
    ensures Run(p, steps).SolReserve() * p.supply >= p.SolReserve() * p.locked
    ensures Run(p, steps).vault * p.supply >= p.vault * p.locked
    ensures Run(p, steps).SolReserve() * Run(p, steps).locked * p.supply
         >= p.SolReserve() * p.locked * Run(p, steps).supply
    ensures Run(p, steps).vault * Run(p, steps).locked * p.supply
         >= p.vault * p.locked * Run(p, steps).supply
  {
    RunSafe(p, steps);
    var q := Run(p, steps);
    hide Run;
    FloorArithmetic(p.SolReserve(), p.supply, p.locked, q.SolReserve(), q.supply, q.locked);
    FloorArithmetic(p.vault, p.supply, p.locked, q.vault, q.supply, q.locked);
  }

  lemma FloorArithmetic(x: nat, l: nat, k: nat, y: nat, m: nat, j: nat)
    requires y * l >= x * m && j >= k && m >= j
    ensures y * l >= x * k
    ensures y * j * l >= x * k * m
  {
    MulMono(k, m, x);
    MulMono(x * m, y * l, j);
    MulMono(k, j, x * m);
    assert (x * m) * k == x * k * m;
    assert (y * l) * j == y * j * l;
  }

  /** With swaps in the run the floor is on the product of the reserves. */
  lemma LockedProductFloor(p: Pool, steps: seq<Step>)
    requires Alive(p)
    ensures (Run(p, steps).SolReserve() * Run(p, steps).vault) * (p.supply * p.supply)
         >= (p.SolReserve() * p.vault) * (p.locked * p.locked)
  {
    RunSafe(p, steps);
    var q := Run(p, steps);
    hide Run, DepthGrows;
    DepthFloor(DepthOf(p), DepthOf(q), p.locked);
  }

  /** Under each reserve by itself the floor can break, on the side a swap pays from. A sell keeps
      the SOL at or above its locked share exactly when its curve output leaves that share, and a
      buy the tokens; the other side only gains. */
  lemma SwapKeepsFloorIff(p: Pool, args: SwapArgs, now: u64, net: u64, q: Pool, m: SwapMetrics)
    requires Alive(p) && Swap(p, args, now, net) == Success((q, m))
    ensures var paid := if args.buy then args.amountIn else net;
            && CalcSwapFee(paid).Some? && CalcSwapFee(paid).value <= paid
            && var e := paid - CalcSwapFee(paid).value;
            var (x, y) := if args.buy then (p.SolReserve(), p.vault) else (p.vault, p.SolReserve());
            var (x', y') := if args.buy then (q.SolReserve(), q.vault) else (q.vault, q.SolReserve());
            && x' * p.supply >= x * p.locked
            && (y' * p.supply >= y * p.locked <==> (e * y / (x + e)) * p.supply <= y * (p.supply - p.locked))
  {
    assert p.locked <= p.supply && p.oracle.WellFormed() && p.rent <= p.lamports;
    hide Swap, Alive;
    SwapParts(p, args, now, net, q, m);
    SwapGrowsProduct(p, args, now, net, q, m);
    var paid := if args.buy then args.amountIn else net;
    var e := paid - m.fee;
    var (x, y) := if args.buy then (p.SolReserve(), p.vault) else (p.vault, p.SolReserve());
    var (x', y') := if args.buy then (q.SolReserve(), q.vault) else (q.vault, q.SolReserve());
    assert CalcSwapOutput(e, x, y) == Some(m.amountOutGross);
    assert x' >= x && y' == y - m.amountOutGross;
    hide *;
    var out := SwapOutputFloor(e, x, y);
    DivIs(e * y, x + e, out);
    MulBounds(x, p.locked, x', p.supply);
    KeepsShareIff(y, out, p.supply, p.locked);
  }

  lemma KeepsShareIff(y: int, out: int, l: int, k: int)
    ensures (y - out) * l >= y * k <==> out * l <= y * (l - k)
  {
    assert (y - out) * l == y * l - out * l;
    assert y * (l - k) == y * l - y * k;
  }

  // ----- splitting and round trips never beat the pool -----

  /** However LP leaves, in any number of pieces and with any deposits, gifts or burns between: when
      the supply is down by b in the end, each reserve is down by at most what one redemption of b
      pays at the start. */
  lemma RedeemInPieces(p: Pool, steps: seq<Step>)
    requires Alive(p) && NoSwaps(steps) && Run(p, steps).supply <= p.supply
    ensures var b := p.supply - Run(p, steps).supply;
            && CalcLpRedeem(b, p.SolReserve(), p.supply).Some?
            && CalcLpRedeem(b, p.vault, p.supply).Some?
            && p.SolReserve() - Run(p, steps).SolReserve() <= CalcLpRedeem(b, p.SolReserve(), p.supply).value
            && p.vault - Run(p, steps).vault <= CalcLpRedeem(b, p.vault, p.supply).value
  {
    assert p.oracle.WellFormed();
    hide Run, CalcLpRedeem, Alive, DepthGrows, SharesGrow, NoSwaps;
    RunSafe(p, steps);
    AliveHasReserves(p);
    var q := Run(p, steps);
    var b := p.supply - q.supply;
    var x := LpRedeemFloor(b, p.SolReserve(), p.supply);
    var y := LpRedeemFloor(b, p.vault, p.supply);
    SharesPayAtMost(DepthOf(p), DepthOf(q), x, y);
  }

  /** Redemptions, with LP moved or burnt between them. */
  predicate RedeemsOnly(steps: seq<Step>) {
    forall i :: 0 <= i < |steps| ==>
      steps[i].RemoveStep? || steps[i].TransferLp? || steps[i].LockLp? || steps[i].BurnLp?
  }

  /** What the accepted redemptions of a run pay, in lamports and in tokens. */
  function Payouts(p: Pool, steps: seq<Step>): (nat, nat)
    requires p.oracle.WellFormed()
    decreases |steps|
  {
    if steps == [] then (0, 0)
    else
      var rest := Payouts(Apply(p, steps[0]), steps[1..]);
      var paid := PaidBy(p, steps[0]);
      (paid.0 + rest.0, paid.1 + rest.1)
  }

  function PaidBy(p: Pool, step: Step): (nat, nat) {
    if step.RemoveStep? && Remove(p, step.provider, step.remove, step.net).Success? then
      var m := Remove(p, step.provider, step.remove, step.net).value.1;
      (m.solOut, m.tokensOutGross)
    else (0, 0)
  }

  /** Such a step takes from the reserves exactly what it pays, and never adds LP. */
  lemma RedeemTakesPayout(p: Pool, step: Step)
    requires Alive(p) && (step.RemoveStep? || step.TransferLp? || step.LockLp? || step.BurnLp?)
    ensures p.SolReserve() - Apply(p, step).SolReserve() == PaidBy(p, step).0
    ensures p.vault - Apply(p, step).vault == PaidBy(p, step).1
    ensures Apply(p, step).supply <= p.supply
  {
    if step.RemoveStep? && Attempt(p, step).Success? {
      var (q, m) := Remove(p, step.provider, step.remove, step.net).value;
      BalanceBounded(p, step.provider);
      RemoveGrowsShares(p, step.provider, step.remove, step.net, q, m);
    }
    hide Remove, Alive;
  }

  lemma {:induction false} PayoutsLeave(p: Pool, steps: seq<Step>)
    requires Alive(p) && RedeemsOnly(steps)
    ensures p.SolReserve() - Run(p, steps).SolReserve() == Payouts(p, steps).0
    ensures p.vault - Run(p, steps).vault == Payouts(p, steps).1
    ensures Run(p, steps).supply <= p.supply
    decreases |steps|
  {
    if steps != [] {
      StepSafe(p, steps[0]);
      RedeemTakesPayout(p, steps[0]);
      hide Apply, PaidBy, Alive;
      PayoutsLeave(Apply(p, steps[0]), steps[1..]);
    }
  }

  /** Redeeming in any number of pieces, by anybody, pays altogether at most what one redemption of
      all the LP that is gone would have paid at the start, on each side. */
  lemma RedemptionsPayAtMostOne(p: Pool, steps: seq<Step>)
    requires Alive(p) && RedeemsOnly(steps)
    ensures var b := p.supply - Run(p, steps).supply;
            && 0 <= b <= p.supply
            && Payouts(p, steps).0 <= b * p.SolReserve() / p.supply
            && Payouts(p, steps).1 <= b * p.vault / p.supply
  {
    assert NoSwaps(steps);
    PayoutsLeave(p, steps);
    RedeemInPieces(p, steps);
    hide Run, Payouts, NoSwaps, RedeemsOnly;
    var b := p.supply - Run(p, steps).supply;
    AliveHasReserves(p);
    var x := LpRedeemFloor(b, p.SolReserve(), p.supply);
    var y := LpRedeemFloor(b, p.vault, p.supply);
    DivIs(b * p.SolReserve(), p.supply, x);
    DivIs(b * p.vault, p.supply, y);
  }

  predicate AddsOnly(steps: seq<Step>) {
    forall i :: 0 <= i < |steps| ==> steps[i].AddStep?
  }

  /** Deposits never lower the SOL held per token, nor the tokens held. */
  lemma {:induction false} AddsRaisePrice(p: Pool, steps: seq<Step>)
    requires Alive(p) && AddsOnly(steps)
    ensures Run(p, steps).SolReserve() * p.vault >= p.SolReserve() * Run(p, steps).vault
    ensures Run(p, steps).vault >= p.vault && Run(p, steps).supply >= p.supply
    decreases |steps|
  {
    if steps != [] {
      var q := Apply(p, steps[0]);
      StepSafe(p, steps[0]);
      AddRaisesPrice(p, steps[0]);
      hide Apply;
      assert AddsOnly(steps[1..]);
      AddsRaisePrice(q, steps[1..]);
      AliveHasReserves(q);
      var r := Run(q, steps[1..]);
      hide Run;
      RatioTransitive(p.SolReserve(), p.vault, q.SolReserve(), q.vault, r.SolReserve(), r.vault);
    }
  }

  lemma AddRaisesPrice(p: Pool, step: Step)
    requires Alive(p) && step.AddStep?
    ensures Apply(p, step).SolReserve() * p.vault >= p.SolReserve() * Apply(p, step).vault
    ensures Apply(p, step).vault >= p.vault && Apply(p, step).supply >= p.supply
  {
    var r := Add(p, step.provider, step.add, step.net);
    if r.Success? {
      var (q, m) := r.value;
      AddGrowsShares(p, step.provider, step.add, step.net, q, m);
      AddParts(p, step.provider, step.add, step.net, q, m);
      assert q.SolReserve() == p.SolReserve() + m.solIn;
      assert Apply(p, step) == q;
      AliveHasReserves(p);
      hide Add, Apply, Alive, SharesGrow, DepthGrows;
      ProportionalCeil(step.net, p.vault, p.SolReserve());
      hide CalcProportionalCeil;
      ChargeRaisesPrice(p.SolReserve(), p.vault, m.solIn, step.net);
    }
  }

  lemma ChargeRaisesPrice(sol: nat, tok: nat, s: nat, t: nat)
    requires t * sol <= s * tok
    ensures (sol + s) * tok >= sol * (tok + t)
  {
    assert (sol + s) * tok == sol * tok + s * tok;
    assert sol * (tok + t) == sol * tok + t * sol;
  }

  /** Depositing t net tokens in any number of pieces mints at most what one deposit of t would
      mint and charges at least what it would charge. */
  lemma DepositInPieces(p: Pool, steps: seq<Step>)
    requires Alive(p) && AddsOnly(steps)
    ensures var q := Run(p, steps);
            var t := q.vault - p.vault;
            && t >= 0
            && q.supply - p.supply <= p.supply * t / p.vault
            && (t * p.SolReserve() + p.vault - 1) / p.vault <= q.SolReserve() - p.SolReserve()
  {
    AliveHasReserves(p);
    assert NoSwaps(steps);
    RunSafe(p, steps);
    AddsRaisePrice(p, steps);
    var q := Run(p, steps);
    hide Run, Alive, AddsOnly, NoSwaps, DepthGrows;
    PiecesArithmetic(p.SolReserve(), p.vault, p.supply, q.SolReserve(), q.vault, q.supply);
  }

  lemma PiecesArithmetic(s: nat, v: nat, l: nat, s': nat, v': nat, l': nat)
    requires v > 0 && v' >= v && l' >= l
    requires s' * v >= s * v' && v' * l >= v * l'
    ensures l' - l <= l * (v' - v) / v
    ensures ((v' - v) * s + v - 1) / v <= s' - s
  {
    var t := v' - v;
    assert (l' - l) * v == v * l' - v * l && l * t == v' * l - v * l;
    DivAtLeast(l * t, v, l' - l);
    assert t * s == s * v' - s * v && (s' - s) * v == s' * v - s * v;
    MulBounds(0, 0, t, s);
    MulCancel(0, s' - s, v);
    OneMore(s' - s, v);
    DivBelow(t * s + v - 1, v, s' - s + 1);
  }

  /** Any run of deposits, withdrawals, gifts and burns that ends with no less LP than it began
      leaves the pool with no less of either asset. */
  lemma LiquidityRoundTrip(p: Pool, steps: seq<Step>)
    requires Alive(p) && NoSwaps(steps) && Run(p, steps).supply >= p.supply
    ensures Run(p, steps).SolReserve() >= p.SolReserve() && Run(p, steps).vault >= p.vault
  {
    RunSafe(p, steps);
    AliveHasReserves(p);
    hide Run, Alive, SharesGrow, DepthGrows;
    RoundTripKeepsReserves(DepthOf(p), DepthOf(Run(p, steps)));
  }

  /** Depositing and redeeming at most all the LP that was minted returns at most the deposit. */
  lemma AddThenRedeemLoses(p: Pool, provider: Holder, args: AddArgs, net: u64, q: Pool, added: AddMetrics,
                           who: Holder, out: RemoveArgs, net2: u64, r: Pool, removed: RemoveMetrics)
    requires Alive(p)
    requires Add(p, provider, args, net) == Success((q, added))
    requires Remove(q, who, out, net2) == Success((r, removed))
    requires out.lpAmount <= added.lpToProvider + added.lpLocked
    ensures removed.solOut <= added.solIn && removed.tokensOutGross <= added.tokensIn
  {
    AddAlive(p, provider, args, net, q, added);
    AddGrowsShares(p, provider, args, net, q, added);
    BalanceBounded(q, who);
    RemoveGrowsShares(q, who, out, net2, r, removed);
    AliveHasReserves(p);
    AliveHasReserves(q);
    hide Add, Remove, Alive, SharesGrow, DepthGrows;
    SharesTransitive(DepthOf(p), DepthOf(q), DepthOf(r));
    RoundTripKeepsReserves(DepthOf(p), DepthOf(r));
  }
}
