/** programs/deep_pool/src/instructions: the handlers as they run, moving lamports and tokens
    account by account. Each is proved to end in the state, the metrics and the error that the
    transition functions of `Ledger` give; `Process` adds the runtime's rollback. */
module Handlers {
  import opened Wrappers
  import opened Numbers
  import opened PoolMath
  import opened Oracle
  import opened Ledger
  import opened Solvency

  /** The handler's answer is the transition's: the same metrics with the new state in the
      accounts, or the same error. */
  ghost predicate Agrees<M>(expected: Result<(Pool, M), Error>, answer: Result<M, Error>, state: Pool) {
    match expected
    case Success((q, m)) => answer == Success(m) && state == q
    case Failure(e) => answer == Failure(e)
  }

  lemma BornAlive(p: Pool, creator: Holder, args: CreateArgs, net: u64, now: u64, q: Pool)
    requires Create(p, creator, args, net, now) == Success(q)
    ensures Uninitialised(p.rent, p.SolReserve()) == Some(p) ==> Alive(q)
  {
    hide Create, Alive, Uninitialised;
    if Uninitialised(p.rent, p.SolReserve()) == Some(p) {
      CreateAlive(p.rent, p.SolReserve(), p, creator, args, net, now, q);
    }
  }

  class PoolAccounts {
    const rent: u64
    var lamports: u64
    var vault: u64
    var lpSupply: u64
    var poolLp: u64
    var holderLp: map<Holder, u64>
    const pool: PoolAccount

    ghost predicate Valid()
      reads this, pool
    {
      pool.Valid()
    }

    function State(): (p: Pool)
      requires Valid()
      reads this, pool, pool.observations
      ensures p.oracle.WellFormed()
    {
      Pool(rent, lamports, vault, lpSupply, poolLp, holderLp, pool.State())
    }

    function SolReserve(): u64
      reads this
    {
      SaturatingSub(lamports, rent)
    }

    function LpBalance(h: Holder): u64
      reads this
    {
      if h in holderLp then holderLp[h] else 0
    }

    /** The accounts as Anchor's `init` constraints leave them before the handler runs. */
    constructor (rent: u64, prefunded: u64)
      requires rent + prefunded <= U64_MAX
      ensures Valid() && fresh(pool) && fresh(pool.observations)
      ensures Uninitialised(rent, prefunded) == Some(State())
    {
      this.rent := rent;
      lamports := rent + prefunded;
      vault, lpSupply, poolLp, holderLp := 0, 0, 0, map[];
      pool := new PoolAccount();
    }

    // ----- the token and system program -----

    method MintLp(h: Holder, amount: u64) returns (ok: bool)
      requires Valid()
      modifies this`lpSupply, this`holderLp
      ensures Valid() && (ok <==> MintTo(old(State()), h, amount).Success?)
      ensures State() == if ok then MintTo(old(State()), h, amount).value else old(State())
    {
      if lpSupply + amount > U64_MAX || LpBalance(h) + amount > U64_MAX {
        return false;
      }
      lpSupply := lpSupply + amount;
      holderLp := holderLp[h := LpBalance(h) + amount];
      return true;
    }

    method MintLpToPool(amount: u64) returns (ok: bool)
      requires Valid()
      modifies this`lpSupply, this`poolLp
      ensures Valid() && (ok <==> MintToPool(old(State()), amount).Success?)
      ensures State() == if ok then MintToPool(old(State()), amount).value else old(State())
    {
      if lpSupply + amount > U64_MAX || poolLp + amount > U64_MAX {
        return false;
      }
      lpSupply := lpSupply + amount;
      poolLp := poolLp + amount;
      return true;
    }

    method BurnHolderLp(h: Holder, amount: u64) returns (ok: bool)
      requires Valid()
      modifies this`lpSupply, this`holderLp
      ensures Valid() && (ok <==> Burn(old(State()), h, amount).Success?)
      ensures State() == if ok then Burn(old(State()), h, amount).value else old(State())
    {
      if LpBalance(h) < amount || lpSupply < amount {
        return false;
      }
      lpSupply := lpSupply - amount;
      holderLp := holderLp[h := LpBalance(h) - amount];
      return true;
    }

    method TransferSolIn(amount: u64) returns (ok: bool)
      requires Valid()
      modifies this`lamports
      ensures Valid() && (ok <==> SolIn(old(State()), amount).Success?)
      ensures State() == if ok then SolIn(old(State()), amount).value else old(State())
    {
      if lamports + amount > U64_MAX {
        return false;
      }
      lamports := lamports + amount;
      return true;
    }

    method TransferTokensIn(gross: u64, net: u64) returns (ok: bool)
      requires Valid()
      modifies this`vault
      ensures Valid() && (ok <==> TokensIn(old(State()), gross, net).Success?)
      ensures State() == if ok then TokensIn(old(State()), gross, net).value else old(State())
    {
      if net > gross || vault + net > U64_MAX {
        return false;
      }
      vault := vault + net;
      return true;
    }

    method TransferTokensOut(gross: u64, net: u64) returns (ok: bool)
      requires Valid()
      modifies this`vault
      ensures Valid() && (ok <==> TokensOut(old(State()), gross, net).Success?)
      ensures State() == if ok then TokensOut(old(State()), gross, net).value else old(State())
    {
      if net > gross || vault < gross {
        return false;
      }
      vault := vault - gross;
      return true;
    }

    // ----- swap -----

    method HandleBuy(args: SwapArgs, sol: u64, tok: u64, net: u64) returns (r: Result<SwapMetrics, Error>)
      requires Valid()
      modifies this`lamports, this`vault
      ensures Valid() && Agrees(Buy(old(State()), args, sol, tok, net), r, State())
    {
      hide CalcSwapFee, CalcSwapOutput;
      var poolFee := CalcSwapFee(args.amountIn);
      if poolFee.None? || args.amountIn < poolFee.value {
        return Failure(MathOverflow);
      }
      var effectiveIn := args.amountIn - poolFee.value;
      var tokensOut := CalcSwapOutput(effectiveIn, sol, tok);
      if tokensOut.None? {
        return Failure(MathOverflow);
      }
      if tokensOut.value < args.minimumOut {
        return Failure(SlippageExceeded);
      }
      if tokensOut.value >= tok {
        return Failure(EmptyPool);
      }
      var ok := TransferSolIn(args.amountIn);
      if !ok {
        return Failure(TransferFailed);
      }
      ok := TransferTokensOut(tokensOut.value, net);
      if !ok {
        return Failure(TransferFailed);
      }
      return Success(SwapMetrics(args.amountIn, args.amountIn, tokensOut.value, net, poolFee.value));
    }

    method HandleSell(args: SwapArgs, sol: u64, tok: u64, net: u64) returns (r: Result<SwapMetrics, Error>)
      requires Valid()
      modifies this`lamports, this`vault
      ensures Valid() && Agrees(Sell(old(State()), args, sol, tok, net), r, State())
    {
      hide CalcSwapFee, CalcSwapOutput;
      var vaultBefore := vault;
      var ok := TransferTokensIn(args.amountIn, net);
      if !ok {
        return Failure(TransferFailed);
      }
      var netReceived := vault - vaultBefore;
      if netReceived == 0 {
        return Failure(ZeroInput);
      }
      var poolFee := CalcSwapFee(netReceived);
      if poolFee.None? || netReceived < poolFee.value {
        return Failure(MathOverflow);
      }
      var effectiveIn := netReceived - poolFee.value;
      var solOut := CalcSwapOutput(effectiveIn, tok, sol);
      if solOut.None? {
        return Failure(MathOverflow);
      }
      if solOut.value < args.minimumOut {
        return Failure(SlippageExceeded);
      }
      if solOut.value >= sol {
        return Failure(EmptyPool);
      }
      if SaturatingSub(lamports, solOut.value) < rent {
        return Failure(MinimumLiquidityRequired);
      }
      if lamports < solOut.value {
        return Failure(TransferFailed);
      }
      lamports := lamports - solOut.value;
      return Success(SwapMetrics(args.amountIn, netReceived, solOut.value, solOut.value, poolFee.value));
    }

    method HandleSwap(args: SwapArgs, now: u64, net: u64) returns (r: Result<SwapMetrics, Error>)
      requires Valid()
      modifies this`lamports, this`vault, pool, pool.observations
      ensures Valid() && Agrees(Swap(old(State()), args, now, net), r, State())
    {
      hide Record, Buy, Sell;
      if args.amountIn == 0 {
        return Failure(ZeroInput);
      }
      var sol := SolReserve();
      var tok := vault;
      if sol == 0 || tok == 0 {
        return Failure(EmptyPool);
      }
      var ok := pool.RecordObservation(sol, tok, now);
      if !ok {
        return Failure(MathOverflow);
      }
      if args.buy {
        r := HandleBuy(args, sol, tok, net);
      } else {
        r := HandleSell(args, sol, tok, net);
      }
    }

    // ----- create_pool -----

    /** The first LP supply, with the root computed by Newton's method. */
    static method InitialSupply(sol: u64, net: u64) returns (r: Result<u64, Error>)
      ensures r == InitialLp(sol, net)
    {
      hide FloorSqrt;
      ProductFits(sol, net);
      var product: u128 := sol * net;
      var root := IntegerSqrt(product);
      var sqrt := root.value;
      if sqrt <= MIN_LIQUIDITY {
        return Failure(InsufficientInitialSol);
      }
      var narrowed := Truncate64(sqrt);
      if narrowed < MIN_LIQUIDITY {
        return Failure(MathOverflow);
      }
      return Success(narrowed - MIN_LIQUIDITY);
    }

    method HandleCreate(creator: Holder, args: CreateArgs, net: u64, now: u64) returns (r: Result<(), Error>)
      requires Valid()
      modifies this, pool, pool.observations
      ensures Valid()
      ensures match Create(old(State()), creator, args, net, now)
              case Success(q) => r == Success(()) && State() == q
              case Failure(e) => r == Failure(e)
      ensures r.Success? && Uninitialised(rent, old(SolReserve())) == Some(old(State())) ==> Alive(State())
    {
      hide InitialLp, CreatorLock, Alive;
      ghost var before := State();
      if args.initialSolAmount < MIN_INITIAL_SOL {
        return Failure(InsufficientInitialSol);
      }
      if args.initialTokenAmount < MIN_INITIAL_TOKENS {
        return Failure(InsufficientInitialTokens);
      }
      var vaultBefore := vault;
      var ok := TransferTokensIn(args.initialTokenAmount, net);
      if !ok {
        return Failure(TransferFailed);
      }
      var netTokens := vault - vaultBefore;
      if netTokens == 0 {
        return Failure(InsufficientInitialTokens);
      }
      ok := TransferSolIn(args.initialSolAmount);
      if !ok {
        return Failure(TransferFailed);
      }
      var supply := InitialSupply(args.initialSolAmount, netTokens);
      if supply.Failure? {
        return Failure(supply.error);
      }
      var lpTotal := supply.value;
      var lpBurn := CreatorLock(lpTotal);
      var lpToCreator := lpTotal - lpBurn;
      if lpToCreator == 0 {
        return Failure(InsufficientInitialSol);
      }
      ok := MintLp(creator, lpToCreator);
      if !ok {
        return Failure(TransferFailed);
      }
      ok := MintLpToPool(lpBurn);
      if !ok {
        return Failure(TransferFailed);
      }
      pool.SeedOracle(now);
      BornAlive(before, creator, args, net, now, State());
      return Success(());
    }

    // ----- add_liquidity -----

    method HandleAdd(provider: Holder, args: AddArgs, net: u64) returns (r: Result<AddMetrics, Error>)
      requires Valid()
      modifies this`lamports, this`vault, this`lpSupply, this`poolLp, this`holderLp
      ensures Valid() && Agrees(Add(old(State()), provider, args, net), r, State())
    {
      hide CalcProportionalCeil, CalcLpMint, ProviderLock;
      if args.tokenAmount == 0 {
        return Failure(ZeroDeposit);
      }
      var sol := SolReserve();
      var tok := vault;
      if sol == 0 || tok == 0 {
        return Failure(EmptyPool);
      }
      var supply := lpSupply;
      if supply == 0 {
        return Failure(EmptyPool);
      }
      var worstCaseSol := CalcProportionalCeil(args.tokenAmount, tok, sol);
      if worstCaseSol.None? {
        return Failure(MathOverflow);
      }
      if worstCaseSol.value == 0 {
        return Failure(ZeroDeposit);
      }
      if worstCaseSol.value > args.maxSolAmount {
        return Failure(SolSlippageExceeded);
      }
      var vaultBefore := vault;
      var ok := TransferTokensIn(args.tokenAmount, net);
      if !ok {
        return Failure(TransferFailed);
      }
      var netTokens := vault - vaultBefore;
      if netTokens == 0 {
        return Failure(ZeroDeposit);
      }
      var solRequired := CalcProportionalCeil(netTokens, tok, sol);
      if solRequired.None? {
        return Failure(MathOverflow);
      }
      if solRequired.value == 0 {
        return Failure(ZeroDeposit);
      }
      ok := TransferSolIn(solRequired.value);
      if !ok {
        return Failure(TransferFailed);
      }
      var lpAmount := CalcLpMint(supply, netTokens, tok);
      if lpAmount.None? {
        return Failure(MathOverflow);
      }
      if lpAmount.value == 0 {
        return Failure(ZeroDeposit);
      }
      if lpAmount.value < args.minLpOut {
        return Failure(LpOutputSlippage);
      }
      var lpBurn := ProviderLock(lpAmount.value);
      if lpAmount.value < lpBurn {
        return Failure(MathOverflow);
      }
      var lpToProvider := lpAmount.value - lpBurn;
      if lpToProvider == 0 {
        return Failure(ZeroDeposit);
      }
      ok := MintLp(provider, lpToProvider);
      if !ok {
        return Failure(TransferFailed);
      }
      ok := MintLpToPool(lpBurn);
      if !ok {
        return Failure(TransferFailed);
      }
      return Success(AddMetrics(solRequired.value, netTokens, lpToProvider, lpBurn));
    }

    // ----- remove_liquidity -----

    method HandleRemove(provider: Holder, args: RemoveArgs, net: u64) returns (r: Result<RemoveMetrics, Error>)
      requires Valid()
      modifies this`lamports, this`vault, this`lpSupply, this`holderLp
      ensures Valid() && Agrees(Remove(old(State()), provider, args, net), r, State())
    {
      hide CalcLpRedeem;
      if LpBalance(provider) < args.lpAmount {
        return Failure(InsufficientLpTokens);
      }
      if args.lpAmount == 0 {
        return Failure(ZeroInput);
      }
      var sol := SolReserve();
      var tok := vault;
      var supply := lpSupply;
      if sol == 0 || tok == 0 || supply == 0 {
        return Failure(EmptyPool);
      }
      var solOut := CalcLpRedeem(args.lpAmount, sol, supply);
      if solOut.None? {
        return Failure(MathOverflow);
      }
      var tokensOut := CalcLpRedeem(args.lpAmount, tok, supply);
      if tokensOut.None? {
        return Failure(MathOverflow);
      }
      if solOut.value < args.minSolOut {
        return Failure(SolOutputSlippage);
      }
      if tokensOut.value < args.minTokensOut {
        return Failure(TokenOutputSlippage);
      }
      if sol < solOut.value || tok < tokensOut.value {
        return Failure(MathOverflow);
      }
      if sol - solOut.value < MIN_POOL_RESERVE_SOL || tok - tokensOut.value < MIN_POOL_RESERVE_TOKENS {
        return Failure(MinimumLiquidityRequired);
      }
      var ok := BurnHolderLp(provider, args.lpAmount);
      if !ok {
        return Failure(TransferFailed);
      }
      ok := TransferTokensOut(tokensOut.value, net);
      if !ok {
        return Failure(TransferFailed);
      }
      if lamports < solOut.value {
        return Failure(TransferFailed);
      }
      lamports := lamports - solOut.value;
      return Success(RemoveMetrics(solOut.value, tokensOut.value, net));
    }

    // ----- the runtime -----

    /** The program's entry point, and what anybody may do without it. A refused step can leave the
        accounts half changed. */
    method Dispatch(step: Step) returns (ok: bool)
      requires Valid()
      modifies this, pool, pool.observations
      ensures Valid()
      ensures match Attempt(old(State()), step)
              case Success(q) => ok && State() == q
              case Failure(_) => !ok
    {
      hide Swap, Add, Remove;
      match step {
        case SwapStep(args, now, net) =>
          var r := HandleSwap(args, now, net);
          ok := r.Success?;
        case AddStep(provider, args, net) =>
          var r := HandleAdd(provider, args, net);
          ok := r.Success?;
        case RemoveStep(provider, args, net) =>
          var r := HandleRemove(provider, args, net);
          ok := r.Success?;
        case DonateSol(amount) =>
          ok := TransferSolIn(amount);
        case DonateTokens(gross, net) =>
          ok := TransferTokensIn(gross, net);
        case TransferLp(from, to, amount) =>
          ok := LpBalance(from) >= amount;
          if ok {
            holderLp := holderLp[from := LpBalance(from) - amount];
            ok := LpBalance(to) + amount <= U64_MAX;
            if ok {
              holderLp := holderLp[to := LpBalance(to) + amount];
            }
          }
        case LockLp(from, amount) =>
          ok := LpBalance(from) >= amount && poolLp + amount <= U64_MAX;
          if ok {
            holderLp := holderLp[from := LpBalance(from) - amount];
            poolLp := poolLp + amount;
          }
        case BurnLp(from, amount) =>
          ok := BurnHolderLp(from, amount);
      }
    }

    /** One transaction: runs the instruction and, if it fails part-way, puts every account back. The
        accounts of a live pool stay those of a live pool, no less deep and with no less LP locked. */
    method Process(step: Step) returns (ok: bool)
      requires Valid()
      modifies this, pool, pool.observations
      ensures Valid() && State() == Apply(old(State()), step)
      ensures ok <==> Attempt(old(State()), step).Success?
      ensures Alive(old(State())) ==> Safe(old(State()), step.SwapStep?, State())
    {
      hide Attempt, Alive, Safe;
      var saved := State();
      ok := Dispatch(step);
      if !ok {
        lamports, vault, lpSupply := saved.lamports, saved.vault, saved.supply;
        poolLp, holderLp := saved.locked, saved.holders;
        pool.Restore(saved.oracle);
      }
      assert State() == Apply(saved, step);
      if Alive(saved) {
        StepIsSafe(saved, step);
      }
    }
  }
}
