/** The four instructions of the program as transitions of one pool's accounts: the pool's
    lamports, the token vault, the LP mint and the LP balances. What the runtime decides
    outside the program is a parameter: the slot, and the net amount a Token-2022 transfer
    delivers. A transfer that the system or token program refuses is `TransferFailed`. */
module Ledger {
  import opened Wrappers
  import opened Numbers
  import opened PoolMath
  import opened Oracle

  const MIN_LIQUIDITY: u64 := 1000
  const MIN_INITIAL_SOL: u64 := 5_000_000_000
  const MIN_INITIAL_TOKENS: u64 := 5_000_000
  const MIN_POOL_RESERVE_SOL: u64 := 100_000_000
  const MIN_POOL_RESERVE_TOKENS: u64 := 1_000_000
  const LP_LOCK_CREATOR_BPS: u64 := 2000
  const LP_LOCK_PROVIDER_BPS: u64 := 750

  datatype Error =
    | InsufficientInitialSol | InsufficientInitialTokens | SlippageExceeded | ZeroInput | EmptyPool
    | MathOverflow | SolSlippageExceeded | InsufficientLpTokens | MinimumLiquidityRequired
    | ZeroDeposit | SolOutputSlippage | TokenOutputSlippage | LpOutputSlippage
    | TransferFailed

  /** An owner of LP tokens other than the pool itself. */
  type Holder = nat

  /** `lamports` includes the rent-exempt minimum; `locked` is the pool's own LP account. */
  datatype Pool = Pool(
    rent: u64, lamports: u64, vault: u64,
    supply: u64, locked: u64, holders: map<Holder, u64>,
    oracle: OracleState)
  {
    function SolReserve(): u64 {
      SaturatingSub(lamports, rent)
    }

    function Balance(h: Holder): u64 {
      if h in holders then holders[h] else 0
    }
  }

  // ----- create_pool -----

  datatype CreateArgs = CreateArgs(initialTokenAmount: u64, initialSolAmount: u64)

  /** The pool and its mints as the runtime initialises them: the pool account holds at least
      its rent, anything above it was sent to the address beforehand. */
  function Uninitialised(rent: u64, prefunded: u64): Option<Pool> {
    var lamports :- ToU64(rent + prefunded);
    Some(Pool(rent, lamports, 0, 0, 0, map[], InitOracle(0)))
  }

  // ----- the token and system program's side -----

  function MintTo(p: Pool, h: Holder, amount: u64): Result<Pool, Error> {
    if p.supply + amount > U64_MAX || p.Balance(h) + amount > U64_MAX then Failure(TransferFailed)
    else Success(p.(supply := p.supply + amount, holders := p.holders[h := p.Balance(h) + amount]))
  }

  function MintToPool(p: Pool, amount: u64): Result<Pool, Error> {
    if p.supply + amount > U64_MAX || p.locked + amount > U64_MAX then Failure(TransferFailed)
    else Success(p.(supply := p.supply + amount, locked := p.locked + amount))
  }

  function Burn(p: Pool, h: Holder, amount: u64): Result<Pool, Error> {
    if p.Balance(h) < amount || p.supply < amount then Failure(TransferFailed)
    else Success(p.(supply := p.supply - amount, holders := p.holders[h := p.Balance(h) - amount]))
  }

  function SolIn(p: Pool, amount: u64): Result<Pool, Error> {
    if p.lamports + amount > U64_MAX then Failure(TransferFailed)
    else Success(p.(lamports := p.lamports + amount))
  }

  /** `net` of the `gross` tokens sent reach the vault; the rest is the mint's transfer fee. */
  function TokensIn(p: Pool, gross: u64, net: u64): Result<Pool, Error> {
    if net > gross || p.vault + net > U64_MAX then Failure(TransferFailed)
    else Success(p.(vault := p.vault + net))
  }

  /** All of `gross` leaves the vault; `net` of it reaches the receiver. */
  function TokensOut(p: Pool, gross: u64, net: u64): Result<Pool, Error> {
    if net > gross || p.vault < gross then Failure(TransferFailed)
    else Success(p.(vault := p.vault - gross))
  }

  /** Direct lamport movement out of the pool account. */
  function SolOut(p: Pool, amount: u64): Result<Pool, Error> {
    if p.lamports < amount then Failure(TransferFailed)
    else Success(p.(lamports := p.lamports - amount))
  }

  function Require(condition: bool, e: Error): Result<(), Error> {
    if condition then Success(()) else Failure(e)
  }

  // ----- create_pool -----

  /** `integer_sqrt` panics on u128::MAX only, which no product of two u64 values reaches. */
  function InitialLp(initialSol: u64, netTokens: u64): Result<u64, Error> {
    var product :- OkOr(ToU128(initialSol * netTokens), MathOverflow);
    var sqrt := FloorSqrt(product);
    var _ :- Require(sqrt > MIN_LIQUIDITY, InsufficientInitialSol);
    OkOr(ToU64(sqrt % TWO_64 - MIN_LIQUIDITY), MathOverflow)
  }

  /** The share of freshly minted LP that the creator never gets. */
  function CreatorLock(lpTotal: u64): (lock: u64)
    ensures lock <= lpTotal
  {
    lpTotal * LP_LOCK_CREATOR_BPS / 10000
  }

  function Create(p: Pool, creator: Holder, args: CreateArgs, net: u64, now: u64): Result<Pool, Error> {
    var _ :- Require(args.initialSolAmount >= MIN_INITIAL_SOL, InsufficientInitialSol);
    var _ :- Require(args.initialTokenAmount >= MIN_INITIAL_TOKENS, InsufficientInitialTokens);
    var q :- TokensIn(p, args.initialTokenAmount, net);
    var _ :- Require(net > 0, InsufficientInitialTokens);
    var q :- SolIn(q, args.initialSolAmount);
    var lpTotal :- InitialLp(args.initialSolAmount, net);
    var lpBurn := CreatorLock(lpTotal);
    var _ :- Require(lpTotal - lpBurn > 0, InsufficientInitialSol);
    var q :- MintTo(q, creator, lpTotal - lpBurn);
    var q :- MintToPool(q, lpBurn);
    Success(q.(oracle := InitOracle(now)))
  }

  // ----- swap -----

  datatype SwapArgs = SwapArgs(amountIn: u64, minimumOut: u64, buy: bool)

  datatype SwapMetrics = SwapMetrics(
    amountInGross: u64, amountInNet: u64, amountOutGross: u64, amountOutNet: u64, fee: u64)

  /** SOL to token; `net` is what the user's token account receives. */
  function Buy(p: Pool, args: SwapArgs, sol: u64, tok: u64, net: u64): Result<(Pool, SwapMetrics), Error> {
    var poolFee :- OkOr(CalcSwapFee(args.amountIn), MathOverflow);
    var effectiveIn :- OkOr(ToU64(args.amountIn - poolFee), MathOverflow);
    var tokensOut :- OkOr(CalcSwapOutput(effectiveIn, sol, tok), MathOverflow);
    var _ :- Require(tokensOut >= args.minimumOut, SlippageExceeded);
    var _ :- Require(tokensOut < tok, EmptyPool);
    var q :- SolIn(p, args.amountIn);
    var q :- TokensOut(q, tokensOut, net);
    Success((q, SwapMetrics(args.amountIn, args.amountIn, tokensOut, net, poolFee)))
  }

  /** Token to SOL; `net` is what the vault receives. */
  function Sell(p: Pool, args: SwapArgs, sol: u64, tok: u64, net: u64): Result<(Pool, SwapMetrics), Error> {
    var q :- TokensIn(p, args.amountIn, net);
    var _ :- Require(net > 0, ZeroInput);
    var poolFee :- OkOr(CalcSwapFee(net), MathOverflow);
    var effectiveIn :- OkOr(ToU64(net - poolFee), MathOverflow);
    var solOut :- OkOr(CalcSwapOutput(effectiveIn, tok, sol), MathOverflow);
    var _ :- Require(solOut >= args.minimumOut, SlippageExceeded);
    var _ :- Require(solOut < sol, EmptyPool);
    var _ :- Require(SaturatingSub(q.lamports, solOut) >= q.rent, MinimumLiquidityRequired);
    var q :- SolOut(q, solOut);
    Success((q, SwapMetrics(args.amountIn, net, solOut, solOut, poolFee)))
  }

  function Swap(p: Pool, args: SwapArgs, now: u64, net: u64): Result<(Pool, SwapMetrics), Error>
    requires p.oracle.WellFormed()
  {
    var _ :- Require(args.amountIn > 0, ZeroInput);
    var sol, tok := p.SolReserve(), p.vault;
    var _ :- Require(sol > 0 && tok > 0, EmptyPool);
    var oracle :- OkOr(Record(p.oracle, sol, tok, now), MathOverflow);
    var q := p.(oracle := oracle);
    if args.buy then Buy(q, args, sol, tok, net) else Sell(q, args, sol, tok, net)
  }

  // ----- add_liquidity -----

  datatype AddArgs = AddArgs(tokenAmount: u64, maxSolAmount: u64, minLpOut: u64)

  datatype AddMetrics = AddMetrics(solIn: u64, tokensIn: u64, lpToProvider: u64, lpLocked: u64)

  /** The share of a deposit's LP that stays locked: 7.5%, and at least one unit. */
  function ProviderLock(lpAmount: u64): u64 {
    Max(lpAmount * LP_LOCK_PROVIDER_BPS / 10000, 1)
  }

  function Add(p: Pool, provider: Holder, args: AddArgs, net: u64): Result<(Pool, AddMetrics), Error> {
    var _ :- Require(args.tokenAmount > 0, ZeroDeposit);
    var sol, tok, supply := p.SolReserve(), p.vault, p.supply;
    var _ :- Require(sol > 0 && tok > 0, EmptyPool);
    var _ :- Require(supply > 0, EmptyPool);
    var worstCaseSol :- OkOr(CalcProportionalCeil(args.tokenAmount, tok, sol), MathOverflow);
    var _ :- Require(worstCaseSol > 0, ZeroDeposit);
    var _ :- Require(worstCaseSol <= args.maxSolAmount, SolSlippageExceeded);
    var q :- TokensIn(p, args.tokenAmount, net);
    var _ :- Require(net > 0, ZeroDeposit);
    var solRequired :- OkOr(CalcProportionalCeil(net, tok, sol), MathOverflow);
    var _ :- Require(solRequired > 0, ZeroDeposit);
    var q :- SolIn(q, solRequired);
    var lpAmount :- OkOr(CalcLpMint(supply, net, tok), MathOverflow);
    var _ :- Require(lpAmount > 0, ZeroDeposit);
    var _ :- Require(lpAmount >= args.minLpOut, LpOutputSlippage);
    var lpBurn := ProviderLock(lpAmount);
    var lpToProvider :- OkOr(ToU64(lpAmount - lpBurn), MathOverflow);
    var _ :- Require(lpToProvider > 0, ZeroDeposit);
    var q :- MintTo(q, provider, lpToProvider);
    var q :- MintToPool(q, lpBurn);
    Success((q, AddMetrics(solRequired, net, lpToProvider, lpBurn)))
  }

  // ----- remove_liquidity -----

  datatype RemoveArgs = RemoveArgs(lpAmount: u64, minSolOut: u64, minTokensOut: u64)

  datatype RemoveMetrics = RemoveMetrics(solOut: u64, tokensOutGross: u64, tokensOutNet: u64)

  /** `net` is what the provider's token account receives. */
  function Remove(p: Pool, provider: Holder, args: RemoveArgs, net: u64): Result<(Pool, RemoveMetrics), Error> {
    var _ :- Require(p.Balance(provider) >= args.lpAmount, InsufficientLpTokens);
    var _ :- Require(args.lpAmount > 0, ZeroInput);
    var sol, tok, supply := p.SolReserve(), p.vault, p.supply;
    var _ :- Require(sol > 0 && tok > 0, EmptyPool);
    var _ :- Require(supply > 0, EmptyPool);
    var solOut :- OkOr(CalcLpRedeem(args.lpAmount, sol, supply), MathOverflow);
    var tokensOut :- OkOr(CalcLpRedeem(args.lpAmount, tok, supply), MathOverflow);
    var _ :- Require(solOut >= args.minSolOut, SolOutputSlippage);
    var _ :- Require(tokensOut >= args.minTokensOut, TokenOutputSlippage);
    var solRemaining :- OkOr(ToU64(sol - solOut), MathOverflow);
    var tokensRemaining :- OkOr(ToU64(tok - tokensOut), MathOverflow);
    var _ :- Require(solRemaining >= MIN_POOL_RESERVE_SOL && tokensRemaining >= MIN_POOL_RESERVE_TOKENS,
                     MinimumLiquidityRequired);
    var q :- Burn(p, provider, args.lpAmount);
    var q :- TokensOut(q, tokensOut, net);
    var q :- SolOut(q, solOut);
    Success((q, RemoveMetrics(solOut, tokensOut, net)))
  }

  // ----- a pool's whole life -----

  /** Everything that can reach a pool's accounts after creation: the three instructions, and
      what anybody may do with the system and token programs directly. */
  datatype Step =
    | SwapStep(swap: SwapArgs, now: u64, net: u64)
    | AddStep(provider: Holder, add: AddArgs, net: u64)
    | RemoveStep(provider: Holder, remove: RemoveArgs, net: u64)
    | DonateSol(amount: u64)
    | DonateTokens(gross: u64, net: u64)
    | TransferLp(from: Holder, to: Holder, amount: u64)
    | LockLp(from: Holder, amount: u64)
    | BurnLp(from: Holder, amount: u64)

  function MoveLp(p: Pool, from: Holder, to: Holder, amount: u64): Result<Pool, Error> {
    var _ :- Require(p.Balance(from) >= amount, TransferFailed);
    var q := p.(holders := p.holders[from := p.Balance(from) - amount]);
    var _ :- Require(q.Balance(to) + amount <= U64_MAX, TransferFailed);
    Success(q.(holders := q.holders[to := q.Balance(to) + amount]))
  }

  function MoveLpToPool(p: Pool, from: Holder, amount: u64): Result<Pool, Error> {
    var _ :- Require(p.Balance(from) >= amount && p.locked + amount <= U64_MAX, TransferFailed);
    Success(p.(holders := p.holders[from := p.Balance(from) - amount], locked := p.locked + amount))
  }

  function Attempt(p: Pool, step: Step): Result<Pool, Error>
    requires p.oracle.WellFormed()
  {
    match step
    case SwapStep(args, now, net) => var r :- Swap(p, args, now, net); Success(r.0)
    case AddStep(provider, args, net) => var r :- Add(p, provider, args, net); Success(r.0)
    case RemoveStep(provider, args, net) => var r :- Remove(p, provider, args, net); Success(r.0)
    case DonateSol(amount) => SolIn(p, amount)
    case DonateTokens(gross, net) => TokensIn(p, gross, net)
    case TransferLp(from, to, amount) => MoveLp(p, from, to, amount)
    case LockLp(from, amount) => MoveLpToPool(p, from, amount)
    case BurnLp(from, amount) => Burn(p, from, amount)
  }

  /** A transaction is atomic: a refused step leaves every account as it was. */
  function Apply(p: Pool, step: Step): (q: Pool)
    requires p.oracle.WellFormed()
    ensures q.oracle.WellFormed()
  {
    var r := Attempt(p, step);
    if r.Success? then r.value else p
  }

  function Run(p: Pool, steps: seq<Step>): (q: Pool)
    requires p.oracle.WellFormed()
    ensures q.oracle.WellFormed()
    decreases |steps|
  {
    if steps == [] then p else Run(Apply(p, steps[0]), steps[1..])
  }
}
