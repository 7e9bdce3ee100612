/** Which calls the program accepts and what exactly they leave, in the numbers of the caller: every
    gate, every rounding and every limit, stated on the inputs and the accounts before the call. */
module Acceptance {
  import opened Wrappers
  import opened Numbers
  import opened PoolMath
  import opened Oracle
  import opened Ledger
  import opened Solvency
  import opened OracleRules

  const MAX: int := 0xFFFF_FFFF_FFFF_FFFF

  /** A quarter percent, rounded down, but at least one unit. */
  function FeeOn(amount: int): int {
    if amount * 25 / 10_000 < 1 then 1 else amount * 25 / 10_000
  }

  /** What `paid` units put in on side x take out of side y. */
  function OutputFor(paid: int, x: int, y: int): int
    requires 0 < paid && 0 < x && paid * 25 <= MAX
  {
    var e := paid - FeeOn(paid);
    FeeIsPart(paid);
    e * y / (x + e)
  }

  lemma FeeIsPart(paid: int)
    requires 0 < paid
    ensures 1 <= FeeOn(paid) <= paid
  {
  }

  /** `amount` parts of `whole` in `parts`, rounded down. */
  function Share(amount: int, whole: int, parts: int): int
    requires parts > 0
  {
    amount * whole / parts
  }

  /** The same, rounded up. */
  function Charge(amount: int, whole: int, parts: int): int
    requires parts > 0
  {
    (amount * whole + parts - 1) / parts
  }

  // ----- swap -----

  lemma FeeIs(amount: u64)
    requires amount > 0
    ensures CalcSwapFee(amount) == if amount * 25 <= MAX then Some(FeeOn(amount)) else None
    ensures 1 <= FeeOn(amount) <= amount
  {
    FeeIsPart(amount);
  }

  lemma OutputIs(paid: u64, x: u64, y: u64)
    requires 0 < paid && 0 < x && 0 < y && paid * 25 <= MAX
    ensures 0 <= OutputFor(paid, x, y) < y
    ensures CalcSwapOutput(paid - FeeOn(paid), x, y) == Some(OutputFor(paid, x, y))
  {
    FeeIsPart(paid);
    var e := paid - FeeOn(paid);
    var out := SwapOutputFloor(e, x, y);
    DivIs(e * y, x + e, out);
    hide CalcSwapOutput;
  }

  ghost predicate BuyAccepted(p: Pool, args: SwapArgs, net: u64) {
    && 0 < args.amountIn && 0 < p.SolReserve() && 0 < p.vault && args.amountIn * 25 <= MAX
    && p.lamports + args.amountIn <= MAX
    && args.minimumOut <= OutputFor(args.amountIn, p.SolReserve(), p.vault)
    && net <= OutputFor(args.amountIn, p.SolReserve(), p.vault)
  }

  ghost predicate BuyLeaves(p: Pool, args: SwapArgs, now: u64, net: u64, q: Pool, m: SwapMetrics)
    requires p.oracle.WellFormed() && BuyAccepted(p, args, net)
  {
    var out := OutputFor(args.amountIn, p.SolReserve(), p.vault);
    && m == SwapMetrics(args.amountIn, args.amountIn, m.amountOutGross, net, m.fee)
    && m.amountOutGross == out && m.fee == FeeOn(args.amountIn)
    && q.lamports == p.lamports + args.amountIn && q.vault == p.vault - out
    && Record(p.oracle, p.SolReserve(), p.vault, now) == Some(q.oracle)
    && q == p.(lamports := q.lamports, vault := q.vault, oracle := q.oracle)
  }

  /** A buy is accepted exactly when something is paid into a pool with both reserves, the fee fits,
      the lamports have room, the gross output reaches the minimum, and the user's token account
      gets no more than that output. What the user nets does not matter for the minimum. */
  lemma BuyIff(p: Pool, args: SwapArgs, now: u64, net: u64)
    requires p.oracle.WellFormed() && args.buy
    ensures match Swap(p, args, now, net)
            case Success((q, m)) => BuyAccepted(p, args, net) && BuyLeaves(p, args, now, net, q, m)
            case Failure(_) => !BuyAccepted(p, args, net)
  {
    var sol, tok := p.SolReserve(), p.vault;
    if 0 < args.amountIn && 0 < sol && 0 < tok {
      TradeRecords(p.oracle, sol, tok, now);
      FeeIs(args.amountIn);
      if args.amountIn * 25 <= MAX {
        OutputIs(args.amountIn, sol, tok);
      }
    }
    hide Record, CalcSwapFee, CalcSwapOutput, OutputFor, FeeOn;
  }

  ghost predicate SellAccepted(p: Pool, args: SwapArgs, net: u64) {
    && 0 < args.amountIn && 0 < p.SolReserve() && 0 < p.vault
    && 0 < net <= args.amountIn && p.vault + net <= MAX && net * 25 <= MAX
    && args.minimumOut <= OutputFor(net, p.vault, p.SolReserve())
  }

  ghost predicate SellLeaves(p: Pool, args: SwapArgs, now: u64, net: u64, q: Pool, m: SwapMetrics)
    requires p.oracle.WellFormed() && SellAccepted(p, args, net)
  {
    var out := OutputFor(net, p.vault, p.SolReserve());
    && m == SwapMetrics(args.amountIn, net, m.amountOutGross, m.amountOutGross, m.fee)
    && m.amountOutGross == out && m.fee == FeeOn(net)
    && q.lamports == p.lamports - out && q.vault == p.vault + net
    && Record(p.oracle, p.SolReserve(), p.vault, now) == Some(q.oracle)
    && q == p.(lamports := q.lamports, vault := q.vault, oracle := q.oracle)
  }

  /** A sell is priced on what reached the vault: it is accepted exactly when that is something, the
      vault has room for it, its fee fits, and its output reaches the minimum. */
  lemma SellIff(p: Pool, args: SwapArgs, now: u64, net: u64)
    requires p.oracle.WellFormed() && !args.buy
    ensures match Swap(p, args, now, net)
            case Success((q, m)) => SellAccepted(p, args, net) && SellLeaves(p, args, now, net, q, m)
            case Failure(_) => !SellAccepted(p, args, net)
  {
    var sol, tok := p.SolReserve(), p.vault;
    if 0 < args.amountIn && 0 < sol && 0 < tok {
      TradeRecords(p.oracle, sol, tok, now);
      if net > 0 {
        FeeIs(net);
        if net * 25 <= MAX {
          OutputIs(net, tok, sol);
        }
      }
    }
    hide Record, CalcSwapFee, CalcSwapOutput, OutputFor, FeeOn;
  }

  lemma TradeRecords(o: OracleState, sol: u64, tok: u64, now: u64)
    requires o.WellFormed() && sol > 0 && tok > 0
    ensures Record(o, sol, tok, now).Some?
  {
    RecordGates(o, sol, tok, now);
    hide Record;
  }

  /** Among swaps that pass the other gates, the slippage error comes exactly from an output below
      the minimum. */
  lemma SlippageIff(p: Pool, args: SwapArgs, now: u64, net: u64)
    requires p.oracle.WellFormed() && 0 < p.SolReserve() && 0 < p.vault && 0 < args.amountIn
    requires !args.buy ==> 0 < net <= args.amountIn && p.vault + net <= MAX
    requires (if args.buy then args.amountIn else net) * 25 <= MAX
    ensures Swap(p, args, now, net) == Failure(SlippageExceeded)
            <==> args.minimumOut > if args.buy then OutputFor(args.amountIn, p.SolReserve(), p.vault)
                                   else OutputFor(net, p.vault, p.SolReserve())
  {
    var sol, tok := p.SolReserve(), p.vault;
    TradeRecords(p.oracle, sol, tok, now);
    FeeIs(if args.buy then args.amountIn else net);
    if args.buy {
      OutputIs(args.amountIn, sol, tok);
    } else {
      OutputIs(net, tok, sol);
    }
    hide Record, CalcSwapFee, CalcSwapOutput, OutputFor, FeeOn;
  }

  /** Every refusal of a swap, in the order of the checks. */
  lemma SwapErrors(p: Pool, args: SwapArgs, now: u64, net: u64)
    requires p.oracle.WellFormed()
    ensures Swap(p, args, now, net).Failure? ==>
              Swap(p, args, now, net).error ==
                if args.amountIn == 0 then ZeroInput
                else if p.SolReserve() == 0 || p.vault == 0 then EmptyPool
                else if args.buy then
                  if args.amountIn * 25 > MAX then MathOverflow
                  else if OutputFor(args.amountIn, p.SolReserve(), p.vault) < args.minimumOut then SlippageExceeded
                  else TransferFailed
                else if net > args.amountIn || p.vault + net > MAX then TransferFailed
                else if net == 0 then ZeroInput
                else if net * 25 > MAX then MathOverflow
                else SlippageExceeded
  {
    var sol, tok := p.SolReserve(), p.vault;
    var paid := if args.buy then args.amountIn else net;
    if 0 < args.amountIn && 0 < paid && 0 < sol && 0 < tok {
      TradeRecords(p.oracle, sol, tok, now);
      FeeIs(paid);
      if paid * 25 <= MAX {
        OutputIs(paid, sol, tok);
        OutputIs(paid, tok, sol);
      }
    } else if 0 < args.amountIn && 0 < sol && 0 < tok {
      TradeRecords(p.oracle, sol, tok, now);
    }
    hide Record, CalcSwapFee, CalcSwapOutput, OutputFor, FeeOn;
  }

  // ----- create_pool -----

  predicate CreateAccepted(rent: u64, prefunded: u64, args: CreateArgs, net: u64) {
    && args.initialSolAmount >= 5_000_000_000 && args.initialTokenAmount >= 5_000_000
    && 0 < net <= args.initialTokenAmount
    && rent + prefunded + args.initialSolAmount <= MAX
  }

  ghost predicate CreateLeaves(rent: u64, prefunded: u64, creator: Holder, args: CreateArgs, net: u64, now: u64,
                               root: int, q: Pool) {
    var lp := root - 1000;
    && q.rent == rent && q.lamports == rent + prefunded + args.initialSolAmount && q.vault == net
    && q.supply == lp && q.locked == lp * 20 / 100 && q.holders == map[creator := q.supply - q.locked]
    && q.oracle == OracleState(0, 0, now, seq(16, _ => Observation(0, 0, 0)), 0)
  }

  /** The refusals, in the order of the checks. */
  function CreateError(args: CreateArgs, net: u64): Error {
    if args.initialSolAmount < 5_000_000_000 then InsufficientInitialSol
    else if args.initialTokenAmount < 5_000_000 then InsufficientInitialTokens
    else if net > args.initialTokenAmount then TransferFailed
    else if net == 0 then InsufficientInitialTokens
    else TransferFailed
  }

  /** A creation is accepted exactly when 5 SOL and 5 tokens are sent, some tokens arrive and the
      lamports have room. The supply is the floored root of what arrived less 1000, of which a
      floored fifth is locked; the oracle starts empty at this slot. */
  lemma CreateIff(rent: u64, prefunded: u64, p: Pool, creator: Holder, args: CreateArgs, net: u64, now: u64)
    returns (root: nat)
    requires Uninitialised(rent, prefunded) == Some(p)
    ensures root * root <= args.initialSolAmount * net < (root + 1) * (root + 1)
    ensures match Create(p, creator, args, net, now)
            case Success(q) =>
              CreateAccepted(rent, prefunded, args, net) && CreateLeaves(rent, prefunded, creator, args, net, now, root, q)
            case Failure(e) => !CreateAccepted(rent, prefunded, args, net) && e == CreateError(args, net)
  {
    root := FloorSqrt(args.initialSolAmount * net);
    if args.initialSolAmount >= 5_000_000_000 && net > 0 {
      RootBounds(args.initialSolAmount, net, root);
      SupplyIs(args.initialSolAmount, net, root);
    }
    hide *;
    CreateWith(rent, prefunded, p, creator, args, net, now, root);
  }

  lemma CreateWith(rent: u64, prefunded: u64, p: Pool, creator: Holder, args: CreateArgs, net: u64, now: u64, root: int)
    requires Uninitialised(rent, prefunded) == Some(p)
    requires args.initialSolAmount >= 5_000_000_000 && net > 0 ==>
               70_710 <= root < TWO_64 && InitialLp(args.initialSolAmount, net) == Success(root - 1000)
    ensures match Create(p, creator, args, net, now)
            case Success(q) =>
              CreateAccepted(rent, prefunded, args, net) && CreateLeaves(rent, prefunded, creator, args, net, now, root, q)
            case Failure(e) => !CreateAccepted(rent, prefunded, args, net) && e == CreateError(args, net)
  {
    hide InitialLp, CreatorLock, InitOracle;
    if args.initialSolAmount >= 5_000_000_000 && net > 0 {
      FifthIs(root - 1000);
      FreshOracle(now);
    }
  }

  lemma FreshOracle(now: u64)
    ensures InitOracle(now) == OracleState(0, 0, now, seq(16, _ => Observation(0, 0, 0)), 0)
  {
    assert seq(16, _ => Observation(0, 0, 0)) == InitOracle(now).observations;
  }

  lemma RootBounds(sol: u64, net: u64, root: nat)
    requires root * root <= sol * net < (root + 1) * (root + 1)
    requires sol >= 5_000_000_000 && net > 0
    ensures 70_710 <= root < TWO_64
  {
    MulBounds(5_000_000_000, 1, sol, net);
    ProductFits(sol, net);
    if root < 70_710 {
      MulBounds(root + 1, root + 1, 70_710, 70_710);
    }
    if root >= TWO_64 {
      MulBounds(TWO_64, TWO_64, root, root);
    }
  }

  lemma SupplyIs(sol: u64, net: u64, root: nat)
    requires root == FloorSqrt(sol * net) && 70_710 <= root < TWO_64
    ensures InitialLp(sol, net) == Success(root - 1000)
  {
    hide FloorSqrt;
    ProductFits(sol, net);
    assert (root as int) % TWO_64 == root;
    assert ToU128(sol * net) == Some(sol * net);
    hide ToU128;
  }

  lemma FifthIs(lp: u64)
    ensures CreatorLock(lp) == lp * 20 / 100
  {
  }

  // ----- add_liquidity -----

  ghost predicate AddAccepted(p: Pool, args: AddArgs, net: u64) {
    && 0 < p.vault && 0 < args.tokenAmount
    && Charge(args.tokenAmount, p.SolReserve(), p.vault) <= args.maxSolAmount
    && 0 < net <= args.tokenAmount && p.vault + net <= MAX
    && p.lamports + Charge(net, p.SolReserve(), p.vault) <= MAX
    && var lp := Share(net, p.supply, p.vault);
       2 <= lp && args.minLpOut <= lp && p.supply + lp <= MAX
  }

  function LockOn(lp: int): int {
    if lp * 75 / 1000 < 1 then 1 else lp * 75 / 1000
  }

  ghost predicate AddLeaves(p: Pool, provider: Holder, net: u64, q: Pool, m: AddMetrics)
    requires 0 < p.vault
  {
    var lp := Share(net, p.supply, p.vault);
    && m.solIn == Charge(net, p.SolReserve(), p.vault) && m.tokensIn == net
    && m.lpLocked == LockOn(lp) && m.lpToProvider == lp - LockOn(lp)
    && q.lamports == p.lamports + m.solIn && q.vault == p.vault + net
    && q.supply == p.supply + lp && q.locked == p.locked + m.lpLocked
    && q.rent == p.rent && q.oracle == p.oracle
    && provider in q.holders && q.holders[provider] == p.Balance(provider) + m.lpToProvider
    && q.holders == p.holders[provider := q.holders[provider]]
  }

  /** A deposit into a live pool is accepted exactly when the rounded-up charge on the gross amount
      is within the provider's limit, tokens arrive, all balances have room, and the mint is at
      least two units and at least the minimum. It is charged and mints on what arrived; 7.5% of the
      mint, and at least one unit, goes to the pool. */
  lemma AddIff(p: Pool, provider: Holder, args: AddArgs, net: u64)
    requires Alive(p)
    ensures match Add(p, provider, args, net)
            case Success((q, m)) => AddAccepted(p, args, net) && AddLeaves(p, provider, net, q, m)
            case Failure(_) => !AddAccepted(p, args, net)
  {
    AliveHasReserves(p);
    BalanceBounded(p, provider);
    assert p.rent <= p.lamports && p.locked <= p.supply;
    hide Alive, CalcProportionalCeil, CalcLpMint, ProviderLock, LockOn, Charge, Share;
    ChargeIs(args.tokenAmount, p.vault, p.SolReserve());
    ChargeIs(net, p.vault, p.SolReserve());
    MintIs(net, p.vault, p.supply);
    var lp := Share(net, p.supply, p.vault);
    if lp <= MAX {
      ProviderLockIs(lp);
    }
  }

  lemma MintIs(net: u64, tok: u64, supply: u64)
    requires tok > 0
    ensures Share(net, supply, tok) >= 0
    ensures CalcLpMint(supply, net, tok) == ToU64(Share(net, supply, tok))
  {
    LpMintFloor(supply, net, tok);
    MulBounds(0, 0, supply, net);
    FloorDiv(supply * net, tok);
    hide CalcLpMint;
  }

  lemma ChargeIs(amount: u64, tok: u64, sol: u64)
    requires tok > 0 && sol > 0
    ensures CalcProportionalCeil(amount, tok, sol) == ToU64(Charge(amount, sol, tok))
    ensures Charge(amount, sol, tok) >= 0 && (amount > 0 ==> Charge(amount, sol, tok) > 0)
  {
    ProportionalCeil(amount, tok, sol);
    hide CalcProportionalCeil;
    MulBounds(0, 0, amount, sol);
    FloorDiv(amount * sol + tok - 1, tok);
    if amount > 0 {
      MulBounds(1, 1, amount, sol);
      DivAtLeast(amount * sol + tok - 1, tok, 1);
    }
  }

  lemma ProviderLockIs(lp: u64)
    ensures ProviderLock(lp) == LockOn(lp) >= 1
    ensures LockOn(lp) < lp <==> 2 <= lp
  {
  }

  /** Every refusal of a deposit into a live pool, in the order of the checks. */
  lemma AddErrors(p: Pool, provider: Holder, args: AddArgs, net: u64)
    requires Alive(p) && 0 < p.vault
    ensures var gross, charge := Charge(args.tokenAmount, p.SolReserve(), p.vault), Charge(net, p.SolReserve(), p.vault);
            var lp := Share(net, p.supply, p.vault);
            Add(p, provider, args, net).Failure? ==>
              Add(p, provider, args, net).error ==
                if args.tokenAmount == 0 then ZeroDeposit
                else if gross > MAX then MathOverflow
                else if gross > args.maxSolAmount then SolSlippageExceeded
                else if net > args.tokenAmount || p.vault + net > MAX then TransferFailed
                else if net == 0 then ZeroDeposit
                else if p.lamports + charge > MAX then TransferFailed
                else if lp > MAX then MathOverflow
                else if lp == 0 then ZeroDeposit
                else if lp < args.minLpOut then LpOutputSlippage
                else if lp == 1 then ZeroDeposit
                else TransferFailed
  {
    AliveHasReserves(p);
    hide Alive, CalcProportionalCeil, CalcLpMint, ProviderLock, LockOn, Charge, Share;
    ChargeIs(args.tokenAmount, p.vault, p.SolReserve());
    ChargeIs(net, p.vault, p.SolReserve());
    MintIs(net, p.vault, p.supply);
    if net <= args.tokenAmount && CalcProportionalCeil(args.tokenAmount, p.vault, p.SolReserve()).Some? {
      ProportionalCeilMonotone(net, args.tokenAmount, p.vault, p.SolReserve());
    }
    var lp := Share(net, p.supply, p.vault);
    if lp <= MAX {
      ProviderLockIs(lp);
    }
  }

  // ----- remove_liquidity -----

  ghost predicate RemoveAccepted(p: Pool, provider: Holder, args: RemoveArgs, net: u64) {
    && 0 < args.lpAmount <= p.Balance(provider) && 0 < p.supply
    && var x, y := Share(args.lpAmount, p.SolReserve(), p.supply), Share(args.lpAmount, p.vault, p.supply);
       && args.minSolOut <= x && args.minTokensOut <= y && net <= y
       && p.SolReserve() - x >= 100_000_000 && p.vault - y >= 1_000_000
  }

  ghost predicate RemoveLeaves(p: Pool, provider: Holder, args: RemoveArgs, net: u64, q: Pool, m: RemoveMetrics)
    requires 0 < p.supply
  {
    && m.solOut == Share(args.lpAmount, p.SolReserve(), p.supply)
    && m.tokensOutGross == Share(args.lpAmount, p.vault, p.supply) && m.tokensOutNet == net
    && q.lamports == p.lamports - m.solOut && q.vault == p.vault - m.tokensOutGross
    && q.supply == p.supply - args.lpAmount && q.locked == p.locked
    && q.rent == p.rent && q.oracle == p.oracle
    && provider in q.holders && q.holders[provider] == p.Balance(provider) - args.lpAmount
    && q.holders == p.holders[provider := q.holders[provider]]
  }

  /** A redemption from a live pool is accepted exactly when the provider has the LP, both floored
      gross payouts reach their minimums, and 0.1 SOL and one token stay in the pool. */
  lemma RemoveIff(p: Pool, provider: Holder, args: RemoveArgs, net: u64)
    requires Alive(p)
    ensures match Remove(p, provider, args, net)
            case Success((q, m)) => RemoveAccepted(p, provider, args, net) && RemoveLeaves(p, provider, args, net, q, m)
            case Failure(_) => !RemoveAccepted(p, provider, args, net)
  {
    AliveHasReserves(p);
    BalanceBounded(p, provider);
    assert p.rent <= p.lamports && p.locked <= p.supply;
    hide Alive, CalcLpRedeem, Share;
    if args.lpAmount <= p.supply {
      PayoutIs(args.lpAmount, p.SolReserve(), p.supply);
      PayoutIs(args.lpAmount, p.vault, p.supply);
    }
  }

  /** Every refusal of a redemption from a live pool, in the order of the checks. */
  lemma RemoveErrors(p: Pool, provider: Holder, args: RemoveArgs, net: u64)
    requires Alive(p) && 0 < p.supply
    ensures var x, y := Share(args.lpAmount, p.SolReserve(), p.supply), Share(args.lpAmount, p.vault, p.supply);
            Remove(p, provider, args, net).Failure? ==>
              Remove(p, provider, args, net).error ==
                if p.Balance(provider) < args.lpAmount then InsufficientLpTokens
                else if args.lpAmount == 0 then ZeroInput
                else if x < args.minSolOut then SolOutputSlippage
                else if y < args.minTokensOut then TokenOutputSlippage
                else if p.SolReserve() - x < 100_000_000 || p.vault - y < 1_000_000 then MinimumLiquidityRequired
                else TransferFailed
  {
    AliveHasReserves(p);
    BalanceBounded(p, provider);
    assert p.rent <= p.lamports && p.locked <= p.supply;
    hide Alive, CalcLpRedeem, Share;
    if args.lpAmount <= p.supply {
      PayoutIs(args.lpAmount, p.SolReserve(), p.supply);
      PayoutIs(args.lpAmount, p.vault, p.supply);
    }
  }

  lemma PayoutIs(amount: u64, reserve: u64, supply: u64)
    requires supply > 0 && amount <= supply
    ensures CalcLpRedeem(amount, reserve, supply) == Some(Share(amount, reserve, supply))
    ensures 0 <= Share(amount, reserve, supply) <= reserve
  {
    var out := LpRedeemFloor(amount, reserve, supply);
    DivIs(amount * reserve, supply, out);
    hide CalcLpRedeem;
  }

  // ----- what needs no instruction -----

  /** LP moves between holders whenever the sender has it and the receiver has room; nothing else
      changes. */
  lemma TransferLpIff(p: Pool, from: Holder, to: Holder, amount: u64)
    requires p.oracle.WellFormed()
    ensures var r := Attempt(p, TransferLp(from, to, amount));
            && (r.Success? <==> amount <= p.Balance(from) && (from == to || p.Balance(to) + amount <= MAX))
            && (r.Success? ==>
                  && r.value == p.(holders := r.value.holders)
                  && forall h :: r.value.Balance(h) ==
                       p.Balance(h) + (if h == to then amount else 0) - (if h == from then amount else 0))
  {
  }

  /** LP can be sent to the pool's own account, and burnt by its holder. */
  lemma LockAndBurnIff(p: Pool, from: Holder, amount: u64)
    requires Alive(p)
    ensures var r := Attempt(p, LockLp(from, amount));
            && (r.Success? <==> amount <= p.Balance(from))
            && (r.Success? ==>
                  && p.locked + amount <= MAX
                  && r.value == p.(locked := p.locked + amount, holders := p.holders[from := p.Balance(from) - amount]))
    ensures var r := Attempt(p, BurnLp(from, amount));
            && (r.Success? <==> amount <= p.Balance(from))
            && (r.Success? ==>
                  && amount <= p.supply
                  && r.value == p.(supply := p.supply - amount, holders := p.holders[from := p.Balance(from) - amount]))
  {
    BalanceBounded(p, from);
    assert p.locked <= p.supply;
    hide Alive;
  }

  /** Gifts only have to fit. */
  lemma DonateIff(p: Pool, gross: u64, net: u64)
    requires p.oracle.WellFormed()
    ensures Attempt(p, DonateSol(gross)) ==
              if p.lamports + gross <= MAX then Success(p.(lamports := p.lamports + gross)) else Failure(TransferFailed)
    ensures Attempt(p, DonateTokens(gross, net)) ==
              if net <= gross && p.vault + net <= MAX then Success(p.(vault := p.vault + net)) else Failure(TransferFailed)
  {
  }
}
