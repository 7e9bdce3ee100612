/** crates/jupiter-amm-deeppool/src/lib.rs: the router's off-chain quote, and its agreement with
    the swap instruction. */
module JupiterQuote {
  import opened Wrappers
  import opened Numbers
  import opened PoolMath
  import opened Oracle
  import opened Ledger
  import opened Acceptance

  type Mint = nat

  const WSOL_MINT: Mint := 0

  datatype SwapMode = ExactIn | ExactOut

  datatype QuoteParams = QuoteParams(amount: u64, inputMint: Mint, outputMint: Mint, swapMode: SwapMode)

  datatype Quote = Quote(inAmount: u64, outAmount: u64, feeAmount: u64, feeMint: Mint)

  datatype QuoteError =
    | OnlyExactIn | PoolEmpty | UnsupportedPair | ZeroAmount | FeeOverflow | FeeUnderflow
    | OutputOverflow | WouldDrain | InputConsumedByFee

  /** The active Token-2022 transfer fee: a rate in basis points, capped per transfer. */
  datatype TransferFee = TransferFee(bps: nat, maximum: u64)

  const NO_TRANSFER_FEE := TransferFee(0, U64_MAX)

  /** What a transfer of `amount` delivers: the fee is rounded up and then capped. */
  function ApplyTransferFee(fee: TransferFee, amount: u64): (net: u64)
    ensures net <= amount
  {
    if fee.bps == 0 || amount == 0 then amount
    else
      var raw := (amount * fee.bps + 9_999) / 10_000;
      SaturatingSub(amount, Min(Min(raw, U64_MAX), fee.maximum))
  }

  class DeepPoolAmm {
    const tokenMint: Mint
    var solReserve: u64
    var tokenReserve: u64
    var transferFee: TransferFee

    constructor FromKeyedAccount(tokenMint: Mint)
      ensures this.tokenMint == tokenMint
      ensures solReserve == 0 && tokenReserve == 0 && transferFee == NO_TRANSFER_FEE
    {
      this.tokenMint := tokenMint;
      solReserve, tokenReserve, transferFee := 0, 0, NO_TRANSFER_FEE;
    }

    /** The mirror shows the pool's accounts. */
    predicate Mirrors(p: Pool)
      reads this
    {
      solReserve == p.SolReserve() && tokenReserve == p.vault
    }

    /** Refreshes the mirror from the pool account, the vault and the mint: afterwards it shows the
        pool p that those accounts belong to, whatever it showed before. */
    method Update(poolLamports: u64, rentExempt: u64, vaultAmount: u64, config: Option<TransferFee>, ghost p: Pool)
      requires p.lamports == poolLamports && p.rent == rentExempt && p.vault == vaultAmount
      modifies this
      ensures Mirrors(p)
      ensures transferFee == if config.Some? then config.value else NO_TRANSFER_FEE
      ensures config.None? ==> forall amount :: ApplyTransferFee(transferFee, amount) == amount
    {
      solReserve := SaturatingSub(poolLamports, rentExempt);
      tokenReserve := vaultAmount;
      match config {
        case Some(active) => transferFee := active;
        case None => transferFee := NO_TRANSFER_FEE;
      }
    }

    function QuoteBuy(amount: u64): Result<Quote, QuoteError>
      reads this
    {
      var poolFee :- OkOr(CalcSwapFee(amount), FeeOverflow);
      var effectiveIn :- OkOr(ToU64(amount - poolFee), FeeUnderflow);
      var gross :- OkOr(CalcSwapOutput(effectiveIn, solReserve, tokenReserve), OutputOverflow);
      if gross >= tokenReserve then Failure(WouldDrain)
      else Success(Quote(amount, ApplyTransferFee(transferFee, gross), poolFee, WSOL_MINT))
    }

    function QuoteSell(amount: u64): Result<Quote, QuoteError>
      reads this
    {
      var netIn := ApplyTransferFee(transferFee, amount);
      if netIn == 0 then Failure(InputConsumedByFee)
      else
        var poolFee :- OkOr(CalcSwapFee(netIn), FeeOverflow);
        var effectiveIn :- OkOr(ToU64(netIn - poolFee), FeeUnderflow);
        var solOut :- OkOr(CalcSwapOutput(effectiveIn, tokenReserve, solReserve), OutputOverflow);
        if solOut >= solReserve then Failure(WouldDrain)
        else Success(Quote(amount, solOut, poolFee, tokenMint))
    }

    function GetQuote(params: QuoteParams): Result<Quote, QuoteError>
      reads this
    {
      if params.swapMode != ExactIn then Failure(OnlyExactIn)
      else if solReserve == 0 || tokenReserve == 0 then Failure(PoolEmpty)
      else if params.inputMint == WSOL_MINT && params.outputMint == tokenMint then
        if params.amount == 0 then Failure(ZeroAmount) else QuoteBuy(params.amount)
      else if params.inputMint == tokenMint && params.outputMint == WSOL_MINT then
        if params.amount == 0 then Failure(ZeroAmount) else QuoteSell(params.amount)
      else Failure(UnsupportedPair)
    }
  }

  // ----- the quote is the swap -----

  /** The gross amount of the token leg: what leaves the vault on a buy, what is sent to it on
      a sell. */
  function TokenLeg(p: Pool, amount: u64, buy: bool): u64 {
    if !buy then amount
    else
      var fee := CalcSwapFee(amount);
      if fee.None? || fee.value > amount then 0
      else
        var out := CalcSwapOutput(amount - fee.value, p.SolReserve(), p.vault);
        if out.None? then 0 else out.value
  }

  /** The quote request that stands for a swap of this direction. */
  function RequestFor(amm: DeepPoolAmm, amount: u64, buy: bool): QuoteParams {
    if buy then QuoteParams(amount, WSOL_MINT, amm.tokenMint, ExactIn)
    else QuoteParams(amount, amm.tokenMint, WSOL_MINT, ExactIn)
  }

  /** The balance that the swap's input goes to stays within 64 bits. */
  predicate HasRoom(p: Pool, amount: u64, buy: bool, net: u64) {
    if buy then p.lamports + amount <= U64_MAX else p.vault + net <= U64_MAX
  }

  lemma QuoteBuyIsBuy(amm: DeepPoolAmm, p: Pool, amount: u64)
    requires amm.Mirrors(p) && p.SolReserve() > 0 && p.vault > 0 && amount > 0
    ensures var net := ApplyTransferFee(amm.transferFee, TokenLeg(p, amount, true));
            var sold := Buy(p, SwapArgs(amount, 0, true), p.SolReserve(), p.vault, net);
            && (sold.Success? <==> amm.QuoteBuy(amount).Success? && HasRoom(p, amount, true, net))
            && (sold.Success? ==>
                  && amm.QuoteBuy(amount).value.outAmount == sold.value.1.amountOutNet
                  && amm.QuoteBuy(amount).value.feeAmount == sold.value.1.fee)
  {
    SwapFeeBounds(amount);
    hide CalcSwapFee;
    if CalcSwapFee(amount).Some? {
      var _ := SwapOutputFloor(amount - CalcSwapFee(amount).value, p.SolReserve(), p.vault);
    }
    hide CalcSwapOutput, ApplyTransferFee;
  }

  lemma QuoteSellIsSell(amm: DeepPoolAmm, p: Pool, amount: u64)
    requires amm.Mirrors(p) && p.rent <= p.lamports && p.SolReserve() > 0 && p.vault > 0
    ensures var net := ApplyTransferFee(amm.transferFee, amount);
            var sold := Sell(p, SwapArgs(amount, 0, false), p.SolReserve(), p.vault, net);
            && (sold.Success? <==> amm.QuoteSell(amount).Success? && HasRoom(p, amount, false, net))
            && (sold.Success? ==>
                  && amm.QuoteSell(amount).value.outAmount == sold.value.1.amountOutNet
                  && amm.QuoteSell(amount).value.feeAmount == sold.value.1.fee)
  {
    hide ApplyTransferFee, CalcSwapFee, CalcSwapOutput;
  }

  /** For every mirrored pool, amount, direction and transfer fee, and any slot: the swap with no
      minimum is accepted exactly when the quote succeeds and the receiving balance has room, and
      then the quote names the net output and the fee of the swap. */
  lemma QuoteMatchesSwap(amm: DeepPoolAmm, p: Pool, amount: u64, buy: bool, now: u64)
    requires p.oracle.WellFormed() && p.rent <= p.lamports && amm.Mirrors(p)
    requires amm.tokenMint != WSOL_MINT
    ensures var net := ApplyTransferFee(amm.transferFee, TokenLeg(p, amount, buy));
            var quote := amm.GetQuote(RequestFor(amm, amount, buy));
            var swap := Swap(p, SwapArgs(amount, 0, buy), now, net);
            && (swap.Success? <==> quote.Success? && HasRoom(p, amount, buy, net))
            && (swap.Success? ==>
                  && quote.value.outAmount == swap.value.1.amountOutNet
                  && quote.value.feeAmount == swap.value.1.fee)
  {
    var sol, tok := p.SolReserve(), p.vault;
    if amount > 0 && sol > 0 && tok > 0 {
      RecordSucceeds(p.oracle, sol, tok, now);
      var q := p.(oracle := Record(p.oracle, sol, tok, now).value);
      assert TokenLeg(p, amount, buy) == TokenLeg(q, amount, buy);
      hide Record, Buy, Sell, ApplyTransferFee, TokenLeg;
      if buy {
        QuoteBuyIsBuy(amm, q, amount);
      } else {
        assert TokenLeg(p, amount, false) == amount by { SellLeg(p, amount); }
        QuoteSellIsSell(amm, q, amount);
      }
    }
  }

  lemma SellLeg(p: Pool, amount: u64)
    ensures TokenLeg(p, amount, false) == amount
  {
  }

  lemma RecordSucceeds(o: OracleState, sol: u64, tok: u64, now: u64)
    requires o.WellFormed() && sol > 0 && tok > 0
    ensures Record(o, sol, tok, now).Some?
  {
    PriceQ64Floor(sol, tok);
    PriceQ64Floor(tok, sol);
  }

  // ----- the quote in numbers -----

  /** A transfer without a fee delivers everything. With one of up to 100% it keeps back the fee f
      that is the rate rounded up, or the cap if that is lower: one unit less would be below the
      rate, and f itself is below it only at the cap. */
  lemma TransferFeeRoundsUp(fee: TransferFee, amount: u64)
    requires fee.bps <= 10_000
    ensures fee.bps == 0 || amount == 0 ==> ApplyTransferFee(fee, amount) == amount
    ensures fee.bps > 0 && amount > 0 ==>
              var f := amount - ApplyTransferFee(fee, amount);
              && f <= fee.maximum
              && (f - 1) * 10_000 < amount * fee.bps
              && (f * 10_000 >= amount * fee.bps || f == fee.maximum)
  {
    if fee.bps > 0 && amount > 0 {
      var n := amount * fee.bps;
      var raw := (n + 9_999) / 10_000;
      MulBounds(1, 1, amount, fee.bps);
      MulBounds(amount, fee.bps, amount, 10_000);
      assert 10_000 * raw <= n + 9_999 < 10_000 * raw + 10_000;
      assert raw <= amount;
    }
  }

  predicate IsBuy(amm: DeepPoolAmm, params: QuoteParams) {
    params.inputMint == WSOL_MINT && params.outputMint == amm.tokenMint
  }

  predicate IsSell(amm: DeepPoolAmm, params: QuoteParams) {
    params.inputMint == amm.tokenMint && params.outputMint == WSOL_MINT
  }

  /** What of the request reaches the pool. */
  function Traded(amm: DeepPoolAmm, params: QuoteParams): u64
    reads amm
  {
    if IsBuy(amm, params) then params.amount else ApplyTransferFee(amm.transferFee, params.amount)
  }

  /** Only an exact-in request for SOL against the pool's token, with something to trade whose fee
      fits, is quoted on a pool with both reserves. */
  ghost predicate Quotable(amm: DeepPoolAmm, params: QuoteParams)
    reads amm
  {
    && params.swapMode == ExactIn && amm.solReserve > 0 && amm.tokenReserve > 0
    && (IsBuy(amm, params) || IsSell(amm, params))
    && params.amount > 0 && 0 < Traded(amm, params) && Traded(amm, params) * 25 <= MAX
  }

  /** The quote repeats the request, takes the fee on what is traded in the mint that is paid in, and
      offers the curve's output, less the transfer fee where tokens go out. */
  ghost predicate IsQuoteFor(amm: DeepPoolAmm, params: QuoteParams, q: Quote)
    requires Quotable(amm, params)
    reads amm
  {
    var traded := Traded(amm, params);
    && q.inAmount == params.amount && q.feeMint == params.inputMint && q.feeAmount == FeeOn(traded)
    && (if IsBuy(amm, params) then
          var out := OutputFor(traded, amm.solReserve, amm.tokenReserve);
          0 <= out <= MAX && q.outAmount == ApplyTransferFee(amm.transferFee, out)
        else q.outAmount == OutputFor(traded, amm.tokenReserve, amm.solReserve))
  }

  lemma QuoteIff(amm: DeepPoolAmm, params: QuoteParams)
    ensures match amm.GetQuote(params)
            case Success(q) => Quotable(amm, params) && IsQuoteFor(amm, params, q)
            case Failure(_) => !Quotable(amm, params)
  {
    var traded := Traded(amm, params);
    var sol, tok := amm.solReserve, amm.tokenReserve;
    if traded > 0 && sol > 0 && tok > 0 {
      FeeIs(traded);
      if traded * 25 <= MAX {
        OutputIs(traded, sol, tok);
        OutputIs(traded, tok, sol);
      }
    }
    hide ApplyTransferFee, CalcSwapFee, CalcSwapOutput, OutputFor, FeeOn;
  }

  /** The refusals, in the order in which they are checked. */
  lemma QuoteErrors(amm: DeepPoolAmm, params: QuoteParams)
    ensures amm.GetQuote(params).Failure? ==>
              amm.GetQuote(params).error ==
                if params.swapMode == ExactOut then OnlyExactIn
                else if amm.solReserve == 0 || amm.tokenReserve == 0 then PoolEmpty
                else if !IsBuy(amm, params) && !IsSell(amm, params) then UnsupportedPair
                else if params.amount == 0 then ZeroAmount
                else if Traded(amm, params) == 0 then InputConsumedByFee
                else FeeOverflow
  {
    var traded := Traded(amm, params);
    var sol, tok := amm.solReserve, amm.tokenReserve;
    if traded > 0 && sol > 0 && tok > 0 {
      FeeIs(traded);
      if traded * 25 <= MAX {
        OutputIs(traded, sol, tok);
        OutputIs(traded, tok, sol);
      }
    }
    hide ApplyTransferFee, CalcSwapFee, CalcSwapOutput, OutputFor, FeeOn;
  }

  // ----- monotone end to end, and when it fails -----

  /** Sending more never delivers less. */
  lemma TransferFeeMonotone(fee: TransferFee, a: u64, b: u64)
    requires fee.bps <= 10_000 && a <= b
    ensures ApplyTransferFee(fee, a) <= ApplyTransferFee(fee, b)
  {
    if 0 < a && fee.bps > 0 {
      var ra, rb := (a * fee.bps + 9_999) / 10_000, (b * fee.bps + 9_999) / 10_000;
      assert b * fee.bps == a * fee.bps + (b - a) * fee.bps;
      MulMono(fee.bps, 10_000, b - a);
      assert rb - ra <= b - a;
    }
  }

  /** A larger request never quotes a smaller output, in either direction. */
  lemma QuoteMonotone(amm: DeepPoolAmm, a: u64, b: u64, buy: bool)
    requires amm.transferFee.bps <= 10_000 && a <= b
    requires amm.GetQuote(RequestFor(amm, a, buy)).Success?
    requires amm.GetQuote(RequestFor(amm, b, buy)).Success?
    ensures amm.GetQuote(RequestFor(amm, a, buy)).value.outAmount
         <= amm.GetQuote(RequestFor(amm, b, buy)).value.outAmount
  {
    hide CalcSwapFee, CalcSwapOutput, ApplyTransferFee;
    if amm.tokenMint == WSOL_MINT || buy {
      EffectiveInMonotone(a, b);
      var x, y := a - CalcSwapFee(a).value, b - CalcSwapFee(b).value;
      SwapOutputMonotone(x, y, amm.solReserve, amm.tokenReserve);
      TransferFeeMonotone(amm.transferFee, CalcSwapOutput(x, amm.solReserve, amm.tokenReserve).value,
                          CalcSwapOutput(y, amm.solReserve, amm.tokenReserve).value);
    } else {
      TransferFeeMonotone(amm.transferFee, a, b);
      var m, n := ApplyTransferFee(amm.transferFee, a), ApplyTransferFee(amm.transferFee, b);
      EffectiveInMonotone(m, n);
      SwapOutputMonotone(m - CalcSwapFee(m).value, n - CalcSwapFee(n).value, amm.tokenReserve, amm.solReserve);
    }
  }

  /** On reserves that are both positive the drain guards, the underflow and the output overflow
      never fire: a quote fails only for a zero amount, an input the transfer fee swallows, or
      an amount so large that its pool fee overflows. */
  lemma QuoteFailsIff(amm: DeepPoolAmm, amount: u64, buy: bool)
    requires amm.solReserve > 0 && amm.tokenReserve > 0 && amm.tokenMint != WSOL_MINT
    ensures var traded := if buy then amount else ApplyTransferFee(amm.transferFee, amount);
            amm.GetQuote(RequestFor(amm, amount, buy)).Failure?
            <==> amount == 0 || traded == 0 || traded * 25 > U64_MAX
  {
    hide ApplyTransferFee;
    var traded := if buy then amount else ApplyTransferFee(amm.transferFee, amount);
    if amount > 0 && traded > 0 {
      SwapFeeBounds(traded);
      hide CalcSwapFee;
      if CalcSwapFee(traded).Some? {
        var e := traded - CalcSwapFee(traded).value;
        if buy {
          var _ := SwapOutputFloor(e, amm.solReserve, amm.tokenReserve);
        } else {
          var _ := SwapOutputFloor(e, amm.tokenReserve, amm.solReserve);
        }
        hide CalcSwapOutput;
      }
    }
  }
}
