/** What every instruction does to the pool's depth, and what therefore holds over every run. */
module Solvency {
  import opened Wrappers
  import opened Numbers
  import opened PoolMath
  import opened Oracle
  import opened Ledger
  import opened Depth

  /** A fifth of the smallest possible first mint: floor((isqrt(5e9) - 1000) * 20%). */
  const MIN_LOCKED: nat := 13942

  function DepthOf(p: Pool): Depth {
    Depth(p.SolReserve(), p.vault, p.supply)
  }

  // ----- LP accounts -----

  ghost function Total(holders: map<Holder, u64>): nat {
    if holders == map[] then 0
    else
      var h :| h in holders;
      holders[h] + Total(holders - {h})
  }

  /** The total does not depend on the order in which the accounts are added up. */
  lemma {:induction false} TotalWithout(holders: map<Holder, u64>, h: Holder)
    requires h in holders
    ensures Total(holders) == holders[h] + Total(holders - {h})
    decreases |holders|
  {
    var first :| first in holders && Total(holders) == holders[first] + Total(holders - {first});
    if first != h {
      TotalWithout(holders - {first}, h);
      TotalWithout(holders - {h}, first);
      assert holders - {first} - {h} == holders - {h} - {first};
    }
  }

  lemma TotalUpdate(holders: map<Holder, u64>, h: Holder, v: u64)
    ensures Total(holders[h := v]) == Total(holders) + v - if h in holders then holders[h] else 0
  {
    TotalWithout(holders[h := v], h);
    if h in holders {
      TotalWithout(holders, h);
      assert holders[h := v] - {h} == holders - {h};
    } else {
      assert holders[h := v] - {h} == holders;
    }
  }

  // ----- the invariant of every live pool -----

  ghost predicate Alive(p: Pool) {
    && p.oracle.WellFormed()
    && p.rent <= p.lamports
    && p.supply == p.locked + Total(p.holders)
    && p.locked >= MIN_LOCKED
    && p.supply * p.supply <= p.SolReserve() * p.vault
  }

  // ----- the instructions, one by one -----

  lemma BuyGrowsProduct(p: Pool, args: SwapArgs, net: u64, q: Pool, m: SwapMetrics)
    requires p.rent <= p.lamports && p.SolReserve() > 0 && p.vault > 0 && args.amountIn > 0
    requires Buy(p, args, p.SolReserve(), p.vault, net) == Success((q, m))
    ensures q == p.(lamports := p.lamports + args.amountIn, vault := p.vault - m.amountOutGross)
    ensures m.amountOutGross < p.vault
    ensures q.SolReserve() * q.vault > p.SolReserve() * p.vault
  {
    SwapFeeBounds(args.amountIn);
    hide CalcSwapFee, CalcSwapOutput;
    var e := args.amountIn - m.fee;
    var out := SwapOutputFloor(e, p.SolReserve(), p.vault);
    SwapKeepsProduct(p.SolReserve(), p.vault, args.amountIn, e, out);
  }

  lemma SellEffect(p: Pool, args: SwapArgs, net: u64, q: Pool, m: SwapMetrics)
    requires p.rent <= p.lamports
    requires Sell(p, args, p.SolReserve(), p.vault, net) == Success((q, m))
    ensures q == p.(lamports := p.lamports - m.amountOutGross, vault := p.vault + net)
    ensures 0 < net <= args.amountIn && q.rent <= q.lamports
    ensures m.amountOutGross < p.SolReserve()
    ensures CalcSwapFee(net) == Some(m.fee) && m.fee <= net
    ensures CalcSwapOutput(net - m.fee, p.vault, p.SolReserve()) == Some(m.amountOutGross)
  {
    hide CalcSwapFee, CalcSwapOutput;
  }

  lemma SellGrowsProduct(p: Pool, args: SwapArgs, net: u64, q: Pool, m: SwapMetrics)
    requires p.rent <= p.lamports && p.SolReserve() > 0 && p.vault > 0
    requires Sell(p, args, p.SolReserve(), p.vault, net) == Success((q, m))
    ensures q == p.(lamports := p.lamports - m.amountOutGross, vault := p.vault + net)
    ensures m.amountOutGross < p.SolReserve()
    ensures q.SolReserve() * q.vault > p.SolReserve() * p.vault
  {
    SellEffect(p, args, net, q, m);
    SwapFeeBounds(net);
    hide Sell, CalcSwapFee, CalcSwapOutput;
    var e := net - m.fee;
    var out := SwapOutputFloor(e, p.vault, p.SolReserve());
    var sol := p.SolReserve();
    SwapKeepsProduct(p.vault, sol, net, e, out);
    assert q.SolReserve() == sol - out && q.vault == p.vault + net;
  }

  /** Every successful swap leaves LP alone and strictly grows the product of the reserves. */
  lemma SwapGrowsProduct(p: Pool, args: SwapArgs, now: u64, net: u64, q: Pool, m: SwapMetrics)
    requires p.oracle.WellFormed() && p.rent <= p.lamports
    requires Swap(p, args, now, net) == Success((q, m))
    ensures q.oracle.WellFormed() && q.rent == p.rent && q.rent <= q.lamports
    ensures q.supply == p.supply && q.locked == p.locked && q.holders == p.holders
    ensures q.SolReserve() * q.vault > p.SolReserve() * p.vault
    ensures args.buy ==>
              && q.SolReserve() == p.SolReserve() + args.amountIn
              && q.vault == p.vault - m.amountOutGross
    ensures !args.buy ==>
              && q.SolReserve() == p.SolReserve() - m.amountOutGross
              && q.vault == p.vault + net && net <= args.amountIn
  {
    var oracle := Record(p.oracle, p.SolReserve(), p.vault, now).value;
    hide Record;
    if args.buy {
      BuyGrowsProduct(p.(oracle := oracle), args, net, q, m);
    } else {
      SellGrowsProduct(p.(oracle := oracle), args, net, q, m);
    }
  }

  lemma AddGrowsShares(p: Pool, provider: Holder, args: AddArgs, net: u64, q: Pool, m: AddMetrics)
    requires p.rent <= p.lamports
    requires Add(p, provider, args, net) == Success((q, m))
    ensures q.oracle == p.oracle && q.rent == p.rent && q.lamports == p.lamports + m.solIn
    ensures q.vault == p.vault + net && m.tokensIn == net
    ensures q.supply == p.supply + m.lpToProvider + m.lpLocked
    ensures q.locked == p.locked + m.lpLocked && m.lpLocked >= 1
    ensures q.holders == p.holders[provider := p.Balance(provider) + m.lpToProvider]
    ensures SharesGrow(DepthOf(p), DepthOf(q))
    ensures m.lpToProvider + m.lpLocked == p.supply * net / p.vault
    ensures m.solIn <= args.maxSolAmount
  {
    LpMintFloor(p.supply, net, p.vault);
    ProportionalCeil(net, p.vault, p.SolReserve());
    ProportionalCeilMonotone(net, args.tokenAmount, p.vault, p.SolReserve());
    DepositGrowsShares(DepthOf(p), net, m.solIn, m.lpToProvider + m.lpLocked);
  }

  lemma RemoveGrowsShares(p: Pool, provider: Holder, args: RemoveArgs, net: u64, q: Pool, m: RemoveMetrics)
    requires p.rent <= p.lamports && p.Balance(provider) <= p.supply
    requires Remove(p, provider, args, net) == Success((q, m))
    ensures q.oracle == p.oracle && q.rent == p.rent && q.lamports == p.lamports - m.solOut
    ensures q.rent <= q.lamports
    ensures q.vault == p.vault - m.tokensOutGross
    ensures q.supply == p.supply - args.lpAmount && q.locked == p.locked
    ensures args.lpAmount <= p.Balance(provider)
    ensures q.holders == p.holders[provider := p.Balance(provider) - args.lpAmount]
    ensures SharesGrow(DepthOf(p), DepthOf(q))
  {
    var x := LpRedeemFloor(args.lpAmount, p.SolReserve(), p.supply);
    var y := LpRedeemFloor(args.lpAmount, p.vault, p.supply);
    RedeemGrowsShares(DepthOf(p), args.lpAmount, x, y);
  }

  // ----- birth -----

  /** The first LP supply is the exact floored root less 1000: the narrowing cast is lossless. */
  lemma InitialLpIsRoot(sol: u64, net: u64, lp: u64)
    requires InitialLp(sol, net) == Success(lp)
    ensures lp == FloorSqrt(sol * net) - 1000
    ensures lp * lp <= sol * net
  {
    ProductFits(sol, net);
    var root := FloorSqrt(sol * net);
    SquareMonotone(sol * net, TWO_128 - 1, root, TWO_64 - 1);
    MulBounds(lp, lp, root, root);
  }

  lemma InitialLpAtLeast(sol: u64, net: u64, lp: u64, floor: nat)
    requires InitialLp(sol, net) == Success(lp)
    requires floor * floor <= sol * net
    ensures lp >= floor - MIN_LIQUIDITY
  {
    InitialLpIsRoot(sol, net, lp);
    SquareMonotone(sol * net, sol * net, floor, FloorSqrt(sol * net));
  }

  /** What a creation leaves behind. */
  lemma CreateEffect(rent: u64, prefunded: u64, p: Pool, creator: Holder, args: CreateArgs, net: u64, now: u64, q: Pool)
    returns (lp: u64)
    requires Uninitialised(rent, prefunded) == Some(p)
    requires Create(p, creator, args, net, now) == Success(q)
    ensures InitialLp(args.initialSolAmount, net) == Success(lp)
    ensures q == Pool(rent, rent + prefunded + args.initialSolAmount, net, lp, CreatorLock(lp),
                      map[creator := lp - CreatorLock(lp)], InitOracle(now))
    ensures 0 < net <= args.initialTokenAmount && args.initialSolAmount >= MIN_INITIAL_SOL
  {
    lp := InitialLp(args.initialSolAmount, net).value;
    hide InitialLp;
  }

  /** Every pool is born alive. */
  lemma CreateAlive(rent: u64, prefunded: u64, p: Pool, creator: Holder, args: CreateArgs, net: u64, now: u64, q: Pool)
    requires Uninitialised(rent, prefunded) == Some(p)
    requires Create(p, creator, args, net, now) == Success(q)
    ensures Alive(q) && q.locked >= 13942
  {
    var lp := CreateEffect(rent, prefunded, p, creator, args, net, now, q);
    InitialLpIsRoot(args.initialSolAmount, net, lp);
    MulBounds(1, MIN_INITIAL_SOL, net, args.initialSolAmount);
    InitialLpAtLeast(args.initialSolAmount, net, lp, 70710);
    hide InitialLp, FloorSqrt;
    MulMono(args.initialSolAmount, q.SolReserve(), net);
    TotalUpdate(map[], creator, lp - CreatorLock(lp));
    assert map[creator := lp - CreatorLock(lp)] == map[][creator := lp - CreatorLock(lp)];
  }

  // ----- one step -----

  lemma BalanceBounded(p: Pool, h: Holder)
    requires Alive(p)
    ensures p.Balance(h) <= p.supply - p.locked
  {
    if h in p.holders {
      TotalWithout(p.holders, h);
    }
  }

  /** Reserves of a live pool are never zero. */
  lemma AliveHasReserves(p: Pool)
    requires Alive(p)
    ensures p.SolReserve() > 0 && p.vault > 0 && p.supply > 0
  {
    MulStrict(0, p.supply, p.supply);
  }

  lemma AddAlive(p: Pool, provider: Holder, args: AddArgs, net: u64, q: Pool, m: AddMetrics)
    requires Alive(p) && Add(p, provider, args, net) == Success((q, m))
    ensures Alive(q) && SharesGrow(DepthOf(p), DepthOf(q)) && DepthGrows(DepthOf(p), DepthOf(q)) && q.locked > p.locked
  {
    AddGrowsShares(p, provider, args, net, q, m);
    TotalUpdate(p.holders, provider, p.Balance(provider) + m.lpToProvider);
    SharesGiveDepth(DepthOf(p), DepthOf(q));
    RootBoundKept(DepthOf(p), DepthOf(q));
  }

  lemma RemoveAlive(p: Pool, provider: Holder, args: RemoveArgs, net: u64, q: Pool, m: RemoveMetrics)
    requires Alive(p) && Remove(p, provider, args, net) == Success((q, m))
    ensures Alive(q) && SharesGrow(DepthOf(p), DepthOf(q)) && DepthGrows(DepthOf(p), DepthOf(q)) && q.locked == p.locked
  {
    BalanceBounded(p, provider);
    RemoveGrowsShares(p, provider, args, net, q, m);
    TotalUpdate(p.holders, provider, p.Balance(provider) - args.lpAmount);
    SharesGiveDepth(DepthOf(p), DepthOf(q));
    RootBoundKept(DepthOf(p), DepthOf(q));
  }

  lemma SwapAlive(p: Pool, args: SwapArgs, now: u64, net: u64, q: Pool, m: SwapMetrics)
    requires Alive(p) && Swap(p, args, now, net) == Success((q, m))
    ensures Alive(q) && DepthGrows(DepthOf(p), DepthOf(q)) && q.locked == p.locked
    ensures q.supply == p.supply && q.SolReserve() * q.vault > p.SolReserve() * p.vault
  {
    SwapGrowsProduct(p, args, now, net, q, m);
    ProductGivesDepth(DepthOf(p), DepthOf(q));
  }

  /** Moving or burning LP outside the program. */
  lemma LpMovesAlive(p: Pool, step: Step, q: Pool)
    requires Alive(p) && (step.TransferLp? || step.LockLp? || step.BurnLp?)
    requires Attempt(p, step) == Success(q)
    ensures Alive(q) && SharesGrow(DepthOf(p), DepthOf(q)) && DepthGrows(DepthOf(p), DepthOf(q)) && q.locked >= p.locked
  {
    hide Total, SharesGrow, DepthGrows;
    var rest := p.Balance(step.from) - step.amount;
    TotalUpdate(p.holders, step.from, rest);
    if step.TransferLp? {
      var mid := p.(holders := p.holders[step.from := rest]);
      TotalUpdate(mid.holders, step.to, mid.Balance(step.to) + step.amount);
    }
    assert q.supply == q.locked + Total(q.holders);
    hide MoveLp, MoveLpToPool, Burn;
    GiftGrowsShares(DepthOf(p), DepthOf(q));
    SharesGiveDepth(DepthOf(p), DepthOf(q));
    RootBoundKept(DepthOf(p), DepthOf(q));
  }

  lemma DonationAlive(p: Pool, step: Step, q: Pool)
    requires Alive(p) && (step.DonateSol? || step.DonateTokens?)
    requires Attempt(p, step) == Success(q)
    ensures Alive(q) && SharesGrow(DepthOf(p), DepthOf(q)) && DepthGrows(DepthOf(p), DepthOf(q)) && q.locked == p.locked
  {
    GiftGrowsShares(DepthOf(p), DepthOf(q));
    SharesGiveDepth(DepthOf(p), DepthOf(q));
    RootBoundKept(DepthOf(p), DepthOf(q));
  }

  /** What an accepted step keeps. */
  ghost predicate Safe(p: Pool, swap: bool, q: Pool) {
    && Alive(q)
    && DepthGrows(DepthOf(p), DepthOf(q))
    && q.locked >= p.locked
    && (if swap then q.supply == p.supply else SharesGrow(DepthOf(p), DepthOf(q)))
  }

  lemma AcceptedIsSafe(p: Pool, step: Step, q: Pool)
    requires Alive(p) && Attempt(p, step) == Success(q)
    ensures Safe(p, step.SwapStep?, q)
  {
    assert p.oracle.WellFormed();
    hide Alive, SharesGrow, DepthGrows, Swap, Add, Remove, DepthOf;
    match step
    case SwapStep(args, now, net) => SwapAlive(p, args, now, net, q, Swap(p, args, now, net).value.1);
    case AddStep(provider, args, net) => AddAlive(p, provider, args, net, q, Add(p, provider, args, net).value.1);
    case RemoveStep(provider, args, net) =>
      RemoveAlive(p, provider, args, net, q, Remove(p, provider, args, net).value.1);
    case DonateSol(_) => DonationAlive(p, step, q);
    case DonateTokens(_, _) => DonationAlive(p, step, q);
    case _ => LpMovesAlive(p, step, q);
  }

  /** Any step, accepted or refused, from any live pool: it stays alive, its depth per LP does
      not shrink, no locked LP comes back, and only swaps can lower a share of one side. */
  lemma StepSafe(p: Pool, step: Step)
    requires Alive(p)
    ensures Alive(Apply(p, step))
    ensures DepthGrows(DepthOf(p), DepthOf(Apply(p, step)))
    ensures Apply(p, step).locked >= p.locked
    ensures if step.SwapStep? then Apply(p, step).supply == p.supply
            else SharesGrow(DepthOf(p), DepthOf(Apply(p, step)))
  {
    assert p.oracle.WellFormed();
    hide Alive, SharesGrow, DepthGrows, Attempt, DepthOf;
    Unmoved(DepthOf(p));
    if Attempt(p, step).Success? {
      AcceptedIsSafe(p, step, Attempt(p, step).value);
    }
  }

  lemma StepIsSafe(p: Pool, step: Step)
    requires Alive(p)
    ensures Safe(p, step.SwapStep?, Apply(p, step))
  {
    StepSafe(p, step);
  }

  // ----- whole runs -----

  predicate NoSwaps(steps: seq<Step>) {
    forall i :: 0 <= i < |steps| ==> !steps[i].SwapStep?
  }

  /** Over every run of swaps, deposits, withdrawals, donations and LP movements, in any order
      and by anybody: L = locked + all balances, L^2 <= S*T, the depth S*T/L^2 never shrinks
      and locked LP never comes back; without swaps neither S/L nor T/L ever shrinks. */
  lemma {:induction false} RunSafe(p: Pool, steps: seq<Step>)
    requires Alive(p)
    ensures Alive(Run(p, steps))
    ensures DepthGrows(DepthOf(p), DepthOf(Run(p, steps)))
    ensures Run(p, steps).locked >= p.locked
    ensures NoSwaps(steps) ==> SharesGrow(DepthOf(p), DepthOf(Run(p, steps)))
    decreases |steps|
  {
    hide DepthGrows, SharesGrow, Apply, Attempt;
    if steps == [] {
      Unmoved(DepthOf(p));
    } else {
      var q := Apply(p, steps[0]);
      StepSafe(p, steps[0]);
      RunSafe(q, steps[1..]);
      AliveHasReserves(q);
      DepthTransitive(DepthOf(p), DepthOf(q), DepthOf(Run(q, steps[1..])));
      if NoSwaps(steps) {
        assert NoSwaps(steps[1..]);
        SharesTransitive(DepthOf(p), DepthOf(q), DepthOf(Run(q, steps[1..])));
      }
    }
  }

  lemma Unmoved(d: Depth)
    ensures DepthGrows(d, d) && SharesGrow(d, d)
  {
  }

  /** From creation on: the pool's life is safe whatever happens to it. */
  lemma LifeSafe(rent: u64, prefunded: u64, p: Pool, creator: Holder, args: CreateArgs, net: u64, now: u64,
                 born: Pool, steps: seq<Step>)
    requires Uninitialised(rent, prefunded) == Some(p)
    requires Create(p, creator, args, net, now) == Success(born)
    ensures Alive(Run(born, steps))
    ensures DepthGrows(DepthOf(born), DepthOf(Run(born, steps)))
    ensures Run(born, steps).locked >= born.locked >= 13942
  {
    CreateAlive(rent, prefunded, p, creator, args, net, now, born);
    RunSafe(born, steps);
  }
}
