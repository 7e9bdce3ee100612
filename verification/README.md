# DeepPool: a verified model

DeepPool is a constant-product pool between SOL and one token. Its program has four instructions
(`create_pool`, `swap`, `add_liquidity`, `remove_liquidity`), locks a part of all LP for good, and
keeps a time-weighted price oracle inside the pool account. Around it stand an indexer that folds
the program's events into database tables, a router quote and an SDK reader that both repeat the
program's arithmetic off chain. This project models those parts and proves what they promise.

`dafny verify dfyconfig.toml` checks everything.

## The pieces

| file | what it is about |
|---|---|
| `Numbers`, `Wrappers` | the machine integers with their checked, saturating and wrapping operations; `Option` and `Result` |
| `PoolMath` | `math.rs`: fee, curve, LP shares, Q64.64 price, Newton's square root, each with its meaning |
| `Oracle` | the oracle fields of the pool account, updated in place, and the functions they follow |
| `OracleRules` | what one record and one read do, entry by entry, and what the account shows after any run |
| `OracleLog`, `OracleReads`, `OracleWindow`, `OracleLaws` | the 16-entry ring and the wrapping heads refine an unbounded log; what a read means on that log |
| `TwapMirror` | the SDK's reader |
| `Ledger`, `Handlers` | the four instructions: as transitions of a pool's accounts, and as handlers that move balances step by step with the runtime's rollback |
| `Acceptance` | which calls are accepted and what exactly each leaves, on the caller's numbers |
| `Depth`, `Solvency`, `Guarantees`, `BornPool` | what holds in every reachable pool, for traders, for providers and for the locked floor |
| `Sample` | one pool in numbers: a creation, swaps, a deposit and a redemption that are accepted, and inputs on which documented promises fail |
| `PoolOracle` | which steps of a pool's life feed the oracle |
| `JupiterQuote` | the router quote against the swap |
| `EventCodec`, `EventBytes` | the event frame and its strict parser; the accepted strings byte by byte |
| `Indexer`, `BlockWriter` | the block writer: on pool keys, and as it runs on serial ids with two caches |
| `Replay`, `LatestRows`, `History` | restarts, reconnects and re-deliveries; the latest row of a pool; what the tables hold |
| `KeyOrder`, `StoredRows` | both orders in plain terms; the tables column by column |
| `ChainOrder`, `PoolFeed` | fold order against the chain's own order; the row served for a pool against the pool itself |

Every step of `Ledger` takes from outside what the program cannot decide: the slot, and the net
amount that a Token-2022 transfer delivers, which may be anything between nothing and the gross
amount. The rent-exempt minimum is a parameter of the pool. A transfer, mint or burn that the
system or token program refuses is the error `TransferFailed`; any error leaves the pool as it was.

A run of a pool is a sequence of `Step`s by anybody: swaps, deposits, withdrawals, donations of
SOL or tokens, LP transfers (to other holders or into the pool's own account) and LP burns.
A run of the indexer is a sequence of deliveries, restarts and reconnects over one block stream.

## Where the code and its documentation differ

The model follows the code. Each difference but the last is stated as a theorem with its exact
condition, and with an input on which the documented promise fails.

- `min_lp_out` is documented as what the provider receives after the lock
  (`programs/deep_pool/src/instructions/add_liquidity.rs:28-30`); the code compares it with the
  whole mint. `BornPool.MinLpOutIgnoresLock`; with a minimum equal to the mint, `Sample.AddAndRedeem`.
- The locked share of the LP supply is said to ratchet upward (`docs/design.md:119`,
  `docs/audit.md:473`); a deposit locks 7.5% and so lowers it whenever it is above that. What does
  ratchet, without swaps, is the reserve behind the locked LP. `BornPool.LockRatioIff`,
  `BornPool.FirstDepositLowersLockRatio`, `Guarantees.LockedFloor`.
- The creation gate checks the gross token amount, not what reached the vault, so with a transfer
  fee a creator may be unable to leave (`programs/deep_pool/src/constants.rs:12-23`).
  `BornPool.CreatorExitIff`, `Sample.FeeTrapsCreator`.
- The window of a read is commented as at most lookback + spacing
  (`programs/deep_pool/src/state.rs:152-155`); that needs a snapshot shortly before the target.
  `OracleWindow.RingSpacingBoundIff`, `OracleWindow.WindowBound`, `OracleWindow.QuietPoolWindow`.
- Intervals at dust reserves add nothing to the price integral but count in the divisor, so the
  mark can fall below every price of its window. `OracleLaws.ConstantPriceIffNoDust`,
  `Sample.DustMark`.
- The price is said to move on swaps only, deposits and withdrawals being neutral
  (`docs/twap-oracle.md:6-9`, `docs/twap-oracle.md:156-159`). A deposit is neutral exactly when its
  share of the SOL is a whole number, a withdrawal exactly when its two floored payouts are in
  proportion; a SOL donation never is. `PoolOracle.DepositNeutralIff`,
  `PoolOracle.WithdrawalNeutralIff`, `PoolOracle.DonationMovesPrice`, `Sample.DepositMovesPrice`,
  `Sample.WithdrawalMovesPrice`.
- The reserve floor behind the locked LP is stated for each reserve (`docs/audit.md:260`). A swap
  keeps it on the side it pays from exactly when its output leaves the locked share there; over any
  run with swaps only the product has a floor. `Guarantees.SwapKeepsFloorIff`,
  `Guarantees.LockedProductFloor`, `Sample.SellBreaksSolFloor`.
- A block's events are folded in (signature, index) order; the design asks for (transaction, index)
  order (`docs/indexer.md:182`), which is the order of `block.events`. A pool's rows stand in that
  order exactly when in each block the pairs of its events do not decrease. `KeyOrder.ChainOrderByKeys`,
  `ChainOrder.LatestIsChains`, `ChainOrder.ReorderedBlock`. The other statements about the writer are
  about the order it uses.
- During a replay the stored checkpoint goes back with the replayed blocks
  (`indexer/src/stream/writer.rs:209-217`); convergence is proved with that.

## Model

| member | source | states |
|---|---|---|
| PoolMath.SwapFeeBounds | programs/deep_pool/src/math.rs:19-25 | a fee exists exactly while amount * 25 fits 64 bits; it is a quarter percent rounded down, at least one unit and at most the amount |
| PoolMath.EffectiveInMonotone | programs/deep_pool/src/math.rs:19-25 | paying more never leaves less to trade after the fee |
| PoolMath.SwapOutputFloor | programs/deep_pool/src/math.rs:29-33 | no step overflows, the narrowing cast drops no bits, the output is the exact floor and strictly below a non-empty output reserve |
| PoolMath.SwapOutputTight | programs/deep_pool/src/math.rs:27-33 | the output is the largest that keeps the product of the reserves on the traded input; one unit more breaks it |
| PoolMath.SwapOutputMonotone | programs/deep_pool/src/math.rs:29-33 | more input never gives less output |
| PoolMath.LpMintFloor | programs/deep_pool/src/math.rs:39-44 | the mint is the floored share of the supply, absent exactly when it does not fit 64 bits |
| PoolMath.LpRedeemFloor | programs/deep_pool/src/math.rs:49-54 | redeeming at most the supply always succeeds, pays the floored share and never more than the reserve |
| PoolMath.ProportionalCeil | programs/deep_pool/src/math.rs:74-82 | the charge covers the proportional share and exceeds it by less than one unit |
| PoolMath.ProportionalCeilMonotone | programs/deep_pool/src/instructions/add_liquidity.rs:92-105 | the worst-case charge on the gross amount bounds the charge on any smaller net amount |
| PoolMath.PriceQ64Floor | programs/deep_pool/src/math.rs:84-92 | a price exists exactly on a non-zero input reserve and is the exact floor of the Q64.64 ratio |
| PoolMath.IntegerSqrt | programs/deep_pool/src/math.rs:105-117 | Newton's loop terminates with the exact floored root for every u128 except 2^128 - 1, where x + 1 overflows; nothing else can |
| PoolMath.FloorSqrtUnique | programs/deep_pool/src/math.rs:103-117 | the floored root is the only r with r^2 <= n < (r+1)^2 |
| PoolMath.FloorSqrtMonotone | docs/properties.md:70 | a larger number has no smaller root |
| Oracle.PoolAccount.SeedOracle | programs/deep_pool/src/state.rs:70-76 | the account's oracle is that of a pool born at this slot |
| Oracle.PoolAccount.WriteSnapshot | programs/deep_pool/src/state.rs:88-96 | the in-place write is the specified ring write |
| Oracle.PoolAccount.RecordObservation | programs/deep_pool/src/state.rs:104-134 | the in-place record ends in the specified state, or fails with nothing changed |
| Oracle.PoolAccount.ReadTwapSolPerTok | programs/deep_pool/src/state.rs:141-183 | the scanning reader returns the specified mark or nothing |
| Oracle.WindowStart | programs/deep_pool/src/state.rs:156-168 | the scan keeps an eligible observation that no eligible one is newer than, and finds one whenever there is one |
| OracleLog.RecordRefines | programs/deep_pool/src/state.rs:104-134 | a record on ring and wrapped heads fails exactly when one on the unbounded log does, and refines it otherwise |
| OracleLog.SnapshotRefines | programs/deep_pool/src/state.rs:88-96 | writing a snapshot evicts exactly the sixteenth newest and appends to the log |
| OracleLog.RunRefines | programs/deep_pool/src/state.rs:70-134 | after any run of records, in any order of slots, the ring holds exactly the last 16 snapshots in circular order, snapshots are at least 500 slots apart, and the heads are the true integrals mod 2^128 |
| OracleRules.RecordGates | programs/deep_pool/src/state.rs:110-124 | a slot that is not new changes nothing, below 5 SOL only the clock moves, and from 5 SOL on a record fails exactly without tokens |
| OracleRules.RecordedHeads | programs/deep_pool/src/state.rs:117-129 | a trusted record adds to each head, mod 2^128, its floored Q64.64 price times the slots passed |
| OracleRules.SnapshotIff | programs/deep_pool/src/state.rs:130-132 | a trusted record writes a snapshot if and only if the newest one is at least 500 slots old; it takes the entry at the head, which moves round 16 entries |
| OracleRules.ReadIff | programs/deep_pool/src/state.rs:141-183 | a read gives m if and only if there are tokens, the leftmost newest entry in use that is at least `lookback` old is before `now`, and m is the wrapped window from it, the head extended at the current price, over the slots passed |
| OracleRules.EntriesApart | programs/deep_pool/src/constants.rs:39-41 | after any run from creation, no entry is older than slot 500 and any two are at least 500 slots apart |
| OracleRules.FullAccountAnswers | programs/deep_pool/src/constants.rs:36-41 | after any run from creation that has used all 16 entries, every lookback of 1 to 7500 slots is answered |
| OracleReads.WindowStartRefines | programs/deep_pool/src/state.rs:156-168 | the ring answers with the log's own window start, or with nothing because exactly that one was evicted |
| OracleReads.ReadRefines | programs/deep_pool/src/state.rs:141-183 | every read equals the read of the full log; without tokens there is no mark |
| OracleReads.ReadExactIffNoWrap | programs/deep_pool/src/state.rs:172-182 | a read is floor(true window sum / elapsed slots) if and only if that sum is below 2^128 |
| OracleReads.FullRingAlwaysAnswers | programs/deep_pool/src/constants.rs:34-38 | with 16 snapshots taken, every lookback of 1 to 7500 slots is answered |
| OracleWindow.RunDense | programs/deep_pool/src/state.rs:98-102 | over every run, each record above the dust floor has a snapshot less than one spacing before it |
| OracleWindow.WindowBound | programs/deep_pool/src/state.rs:152-155 | a window is shorter than lookback + spacing + the time from the last trusted record to the target |
| OracleWindow.SpacingBoundIff | programs/deep_pool/src/state.rs:152-155 | the commented bound holds exactly when a snapshot was taken within one spacing before the target |
| OracleWindow.RingSpacingBoundIff | programs/deep_pool/src/state.rs:152-155 | the same condition on the ring of the account: the bound holds exactly when some stored entry lies within one spacing before the target |
| OracleWindow.QuietPoolWindow | programs/deep_pool/src/state.rs:152-155 | an input for which it fails: one trade, then rest, and a window ten times the lookback |
| OracleLaws.MarkIsAverage | programs/deep_pool/src/state.rs:170-182 | the mark never exceeds the highest price of its window, and is never below the lowest unless dust intervals were skipped |
| OracleLaws.ConstantPriceIffNoDust | programs/deep_pool/src/state.rs:113-116 | with one price throughout, the mark is that price exactly when the window has no dust slot |
| OracleLaws.RunHoldsPrice | programs/deep_pool/src/state.rs:98-102 | while reserves stand still, any run of records moves both heads by that price times the slots passed |
| OracleLaws.FrequencyIndependent | programs/deep_pool/src/state.rs:98-102 | records at any intermediate slots leave the heads where a single record at the end leaves them |
| OracleLaws.LazyReadIffNotEvicted | programs/deep_pool/src/state.rs:136-150 | reading lazily equals recording first and then reading, exactly unless that record evicts the snapshot the window starts from |
| TwapMirror.ReadTwapSolPerTok | packages/sdk/src/twap.ts:53-76 | for every account, reserves, slot and lookback the SDK gives the program's mark, or nothing in the same cases, wrapped windows included |
| TwapMirror.FindStart | packages/sdk/src/twap.ts:65-70 | the SDK's scan keeps the same observation as the program's |
| Handlers.PoolAccounts.HandleCreate | programs/deep_pool/src/instructions/create_pool.rs:159-320 | step by step, the creation ends in the state of the transition, or in its error; on fresh accounts it leaves a live pool |
| Handlers.PoolAccounts.InitialSupply | programs/deep_pool/src/instructions/create_pool.rs:218-229 | the supply from Newton's root is the one from the exact root |
| Handlers.PoolAccounts.HandleSwap | programs/deep_pool/src/instructions/swap.rs:74-120 | gates, oracle record and the chosen leg give the transition's state, metrics and error |
| Handlers.PoolAccounts.HandleBuy | programs/deep_pool/src/instructions/swap.rs:126-204 | the buy leg moves the balances as its transition does |
| Handlers.PoolAccounts.HandleSell | programs/deep_pool/src/instructions/swap.rs:210-280 | the sell leg measures what arrived and moves the balances as its transition does |
| Handlers.PoolAccounts.HandleAdd | programs/deep_pool/src/instructions/add_liquidity.rs:80-239 | transfer, measured delta, charge and two mints give the transition's state, metrics and error |
| Handlers.PoolAccounts.HandleRemove | programs/deep_pool/src/instructions/remove_liquidity.rs:70-194 | checks, burn and payouts give the transition's state, metrics and error |
| Handlers.PoolAccounts.Process | programs/deep_pool/src/lib.rs:15-42 | one transaction: the accepted step's state, or every account, oracle included, as it was; a live pool stays live, no less deep per LP and with no less LP locked |
| Handlers.PoolAccounts.Dispatch | programs/deep_pool/src/lib.rs:20-42 | each instruction, run on the accounts, ends where the transition of its step does |
| Guarantees.SwapPaysInFull | programs/deep_pool/src/instructions/swap.rs:122-280 | an accepted swap charges the fee on what arrived, pays the most that keeps the product on the rest, and at least the minimum asked for |
| Acceptance.BuyIff | programs/deep_pool/src/instructions/swap.rs:126-204 | a buy is accepted if and only if something is paid into positive reserves, amount * 25 and the lamports fit 64 bits, and the floored gross output of the inputs reaches the minimum and covers what the user gets; state and metrics in those numbers |
| Acceptance.SellIff | programs/deep_pool/src/instructions/swap.rs:210-280 | the same for a sell, priced on what reached the vault, with the gross amount in its metrics |
| Acceptance.SlippageIff | programs/deep_pool/src/instructions/swap.rs:140-143 | among swaps past the other gates, the slippage error comes exactly from a gross output below the minimum |
| Acceptance.SwapErrors | programs/deep_pool/src/instructions/swap.rs:74-270 | every refusal of a swap with its reason, in the order of the checks |
| Acceptance.CreateIff | programs/deep_pool/src/instructions/create_pool.rs:159-290 | a creation is accepted if and only if 5 SOL and 5 tokens are sent gross, some tokens arrive and the lamports fit; the whole pool it leaves in numbers, and which error otherwise |
| Acceptance.AddIff | programs/deep_pool/src/instructions/add_liquidity.rs:80-213 | a deposit is accepted if and only if the rounded-up charge on the gross amount is within the limit, tokens arrive, the balances fit, and the floored mint on what arrived is at least two and the minimum; state and metrics in numbers |
| Acceptance.AddErrors | programs/deep_pool/src/instructions/add_liquidity.rs:80-174 | every refusal of a deposit with its reason, in the order of the checks; the charge on the gross amount is compared with the limit before anything is sent |
| Acceptance.RemoveIff | programs/deep_pool/src/instructions/remove_liquidity.rs:70-169 | a redemption is accepted if and only if the provider has the LP, both floored gross payouts reach their minimums, and 0.1 SOL and one token stay; state and metrics in numbers |
| Acceptance.RemoveErrors | programs/deep_pool/src/instructions/remove_liquidity.rs:70-113 | every refusal of a redemption with its reason, in the order of the checks |
| Acceptance.TransferLpIff | docs/design.md:9 | LP moves whenever the sender has it and the receiver has room, and nothing else changes |
| Acceptance.LockAndBurnIff | docs/design.md:9 | a holder can send LP to the pool's own account, or burn it, exactly up to the own balance |
| Acceptance.DonateIff | programs/deep_pool/src/state.rs:62-67 | lamports and tokens sent to the pool only have to fit, and raise that balance by what arrives |
| Guarantees.AddIsExact | programs/deep_pool/src/instructions/add_liquidity.rs:92-159 | an accepted deposit charges the least SOL that covers its share and mints the most LP its share allows, within both limits |
| Guarantees.RemoveIsExact | programs/deep_pool/src/instructions/remove_liquidity.rs:82-113 | an accepted redemption pays the floored share on both sides, at least both minimums, and leaves the retention floor |
| Solvency.SwapGrowsProduct | programs/deep_pool/src/instructions/swap.rs:126-280 | every accepted swap leaves LP alone and strictly grows the product of the reserves |
| Solvency.AddGrowsShares | programs/deep_pool/src/instructions/add_liquidity.rs:107-213 | a deposit changes exactly these balances, locks at least one unit, and lowers neither reserve per LP token |
| Solvency.RemoveGrowsShares | programs/deep_pool/src/instructions/remove_liquidity.rs:82-169 | a withdrawal changes exactly these balances and lowers neither reserve per LP token |
| Solvency.InitialLpIsRoot | programs/deep_pool/src/instructions/create_pool.rs:218-229 | the first supply is the exact floored root less 1000: the cast to 64 bits loses nothing |
| Solvency.CreateEffect | programs/deep_pool/src/instructions/create_pool.rs:177-290 | the whole state a creation leaves: reserves, supply, the locked fifth, the creator's rest, a fresh oracle |
| Solvency.CreateAlive | programs/deep_pool/src/instructions/create_pool.rs:218-279 | every pool is born with L^2 <= S*T, L equal to locked plus all balances, and at least 13942 locked |
| Solvency.AliveHasReserves | programs/deep_pool/src/instructions/swap.rs:76-82 | a pool in that condition never has an empty reserve |
| Solvency.StepSafe | programs/deep_pool/src/instructions/remove_liquidity.rs:97-103 | any step by anybody keeps a pool alive, shrinks neither S*T/L^2 nor the locked LP, and only swaps may lower one reserve per LP token |
| Solvency.RunSafe | programs/deep_pool/src/math.rs:27-82 | the same over whole runs: S*T/L^2 never decreases and L^2 <= S*T in every reachable state |
| Solvency.LifeSafe | programs/deep_pool/src/instructions/create_pool.rs:218-279 | from creation through any run, the pool stays alive and its locked LP never decreases |
| Guarantees.TradesGrowProduct | programs/deep_pool/src/instructions/swap.rs:126-280 | a run of swaps, donations and LP moves never lowers the product, and raises it strictly once one swap is accepted |
| Guarantees.NoExtraction | programs/deep_pool/src/instructions/swap.rs:126-280 | no closed run of swaps by any traders extracts value: if one reserve ends no higher, the other ends strictly higher |
| Guarantees.BuyThenSellLoses | programs/deep_pool/src/instructions/swap.rs:126-280 | buying and selling back at most what was bought returns strictly less SOL than was paid |
| Guarantees.SellThenBuyLoses | programs/deep_pool/src/instructions/swap.rs:126-280 | the same in the other direction |
| Guarantees.LockedFloor | docs/audit.md:260 | without swaps each reserve stays at or above its locked share, and that floor only rises |
| Guarantees.LockedProductFloor | docs/audit.md:260 | with swaps the locked share is a floor under the product of the reserves |
| Guarantees.SwapKeepsFloorIff | docs/audit.md:260 | a swap keeps the reserve it pays from at or above its locked share exactly when the curve output of its inputs is at most the unlocked share; the other reserve only gains |
| Guarantees.RedeemInPieces | programs/deep_pool/src/math.rs:46-54 | a run without swaps that leaves b LP fewer takes from each reserve, on balance, at most what one redemption of b at the start would pay |
| Guarantees.RedemptionsPayAtMostOne | programs/deep_pool/src/math.rs:46-54 | the payouts of any redemptions in pieces, by anybody, add up to at most the one-shot redemption of all LP that is gone, on each side |
| Guarantees.DepositInPieces | programs/deep_pool/src/math.rs:35-82 | depositing t tokens in any pieces mints at most, and charges at least, what one deposit of t would |
| Guarantees.AddsRaisePrice | programs/deep_pool/src/instructions/add_liquidity.rs:133-138 | deposits never lower the SOL held per token |
| Guarantees.LiquidityRoundTrip | programs/deep_pool/src/math.rs:69-71 | a run without swaps that ends with no less LP leaves no less of either asset |
| Guarantees.AddThenRedeemLoses | programs/deep_pool/src/instructions/remove_liquidity.rs:82-86 | redeeming at most all LP a deposit minted returns at most the deposit on each side |
| BornPool.CreatorExitIff | programs/deep_pool/src/constants.rs:12-31 | the creator of an untouched pool can redeem everything if and only if at least 4999996 token units reached the vault |
| BornPool.MinLpOutIgnoresLock | programs/deep_pool/src/instructions/add_liquidity.rs:153-174 | the provider gets the promised minimum exactly when the quote covers it plus the lock |
| BornPool.LockRatioIff | docs/design.md:119 | a deposit keeps the locked share of the supply exactly when the lock on its quote, floor(supply * net / vault), is at least that share of the quote |
| BornPool.FirstDepositLowersLockRatio | docs/design.md:119 | the first deposit into any new pool lowers the locked share, unless it mints fewer than six units |
| Sample.Birth | programs/deep_pool/src/constants.rs:12-23 | the smallest pool that passes the creation gates, balance by balance, is alive |
| Sample.BuyAndSellBack | programs/deep_pool/src/instructions/swap.rs:126-280 | in it, one SOL buys 831596 units and selling them back pays 995835469 lamports |
| Sample.AddAndRedeem | programs/deep_pool/src/instructions/add_liquidity.rs:80-239 | in it, a deposit of a million units and the redemption of all LP it gave, unit by unit |
| Sample.FeeTrapsCreator | programs/deep_pool/src/constants.rs:12-31 | with a 1% transfer fee the same creation is accepted and its creator's redemption refused |
| Sample.SellBreaksSolFloor | docs/audit.md:260 | an accepted sell that leaves less SOL than the locked share of it |
| Sample.DepositMovesPrice | docs/twap-oracle.md:156-159 | an accepted deposit that raises the Q64.64 price |
| Sample.WithdrawalMovesPrice | docs/twap-oracle.md:156-159 | an accepted redemption of one LP unit that lowers the Q64.64 price |
| Sample.TokenGiftUnseen | docs/twap-oracle.md:5-9 | a token sent to a pool that leaves the rounded Q64.64 price as it was |
| Sample.DustMark | programs/deep_pool/src/state.rs:113-116 | a run at one constant price whose answered mark is zero, because the window was dust |
| PoolOracle.StepRecords | programs/deep_pool/src/instructions/swap.rs:84-88 | exactly the accepted swaps record, each with the reserves before it |
| PoolOracle.LifeRefines | programs/deep_pool/src/instructions/swap.rs:84-88 | from creation through any run the pool's oracle refines the log of its swaps |
| PoolOracle.UnrecordedPriceOnlyRises | docs/twap-oracle.md:156-159 | over any run of deposits the recorded oracle stays as it is while the price never falls |
| PoolOracle.DepositNeutralIff | docs/twap-oracle.md:156-159 | a deposit keeps the reserves in proportion if and only if net * S is a multiple of T, and records nothing |
| PoolOracle.WithdrawalNeutralIff | docs/twap-oracle.md:156-159 | a redemption keeps them in proportion if and only if its two floored payouts are in that proportion, and records nothing |
| PoolOracle.TokenDonationLowersPrice | docs/twap-oracle.md:5-9 | tokens sent to a live pool always lower the proportion of SOL to tokens, never raise the price and record nothing |
| PoolOracle.DonationMovesPrice | docs/twap-oracle.md:5-9 | any lamport sent to a live pool raises its price without a record |
| JupiterQuote.TransferFeeRoundsUp | crates/jupiter-amm-deeppool/src/lib.rs:168-186 | a transfer keeps back its rate rounded up, or the cap if that is lower; without a fee it keeps nothing |
| JupiterQuote.QuoteIff | crates/jupiter-amm-deeppool/src/lib.rs:270-343 | a quote is given if and only if the request is exact-in between SOL and the pool's token on positive reserves and what is traded is positive with a fee that fits; all four numbers of the quote |
| JupiterQuote.QuoteErrors | crates/jupiter-amm-deeppool/src/lib.rs:270-328 | every refusal with its reason, in the order of the checks |
| JupiterQuote.DeepPoolAmm.Update | crates/jupiter-amm-deeppool/src/lib.rs:232-268 | after an update from a pool's accounts the mirror shows that very pool, which is what the agreement of quote and swap asks for; a mint without a fee setting delivers transfers in full |
| JupiterQuote.QuoteMatchesSwap | crates/jupiter-amm-deeppool/src/lib.rs:270-343 | for every mirrored pool, amount, direction and capped fee, the swap with no minimum is accepted exactly when the quote succeeds and the receiving balance has room, and output and fee agree |
| JupiterQuote.TransferFeeMonotone | crates/jupiter-amm-deeppool/src/lib.rs:175-186 | sending more never delivers less, through the rounded-up and capped fee |
| JupiterQuote.QuoteMonotone | crates/jupiter-amm-deeppool/src/lib.rs:296-329 | a larger request never quotes a smaller output, end to end |
| JupiterQuote.QuoteFailsIff | crates/jupiter-amm-deeppool/src/lib.rs:296-329 | on positive reserves the drain guards never fire: only a zero amount, an input the fee swallows or an overflowing fee fails |
| EventCodec.ValuesRoundTrip | indexer/src/contracts.rs:18-86 | a Borsh body is read back field by field, whatever follows it |
| EventCodec.ValuesUnique | indexer/src/contracts.rs:18-86 | bytes that parse are the encoding of what they parse to, followed by the rest |
| EventCodec.FrameRoundTrip | indexer/src/stream/decoder.rs:53-85 | every event of every kind survives framing and decoding |
| EventCodec.DecodeUnique | indexer/src/stream/decoder.rs:53-85 | accepted bytes are exactly the frame of the event they give: no second encoding, no trailing bytes |
| EventCodec.TryDecodeEvent | indexer/src/stream/decoder.rs:53-85 | the parser with its moving cursor gives the specified event or the specified error |
| EventBytes.PoolCreatedIff | indexer/src/contracts.rs:18-86 | a string is accepted as a creation if and only if it has 248 bytes and the 16 of its head, and then each field is the number or key at its place; other strings with this head give which error |
| EventBytes.LiquidityAddedIff | indexer/src/contracts.rs:18-86 | the same for a deposit, 152 bytes |
| EventBytes.LiquidityRemovedIff | indexer/src/contracts.rs:18-86 | the same for a withdrawal, 144 bytes |
| EventBytes.SwapExecutedIff | indexer/src/contracts.rs:18-86 | the same for a swap, 169 bytes, byte 112 being 0 or 1 for its direction |
| EventBytes.OtherFrames | indexer/src/stream/decoder.rs:57-78 | strings under 16 bytes are too short, and those with none of the four heads have an unknown discriminator |
| Indexer.LoadedRow | indexer/src/stream/writer.rs:236-245 | a restart finds a row of the pool whenever there is one |
| Replay.KnownIffCreated | indexer/src/stream/writer.rs:104-115 | the pools listed after a clean pass are exactly those whose creation was in it |
| Replay.ReplayWritesNothing | indexer/src/domain/reserves.rs:82-109 | a block already written, delivered again with any cache, inserts no row into any table |
| Replay.ReplayKeepsCache | indexer/src/stream/writer.rs:158-203 | a replayed block may put old supplies into the cache, but only for pools that a later replayed block sets right |
| Replay.FreshBlock | indexer/src/domain/reserves.rs:82-109 | in a clean pass no insert meets a conflict: all rows built are new |
| Replay.CleanLoads | indexer/src/stream/writer.rs:236-245 | after every clean block the cache agrees with what a new process would load from the tables |
| Replay.RestartConverges | indexer/src/stream/writer.rs:31-32 | a process that dies anywhere, even in the middle of a replay, is replaced by one in the same relation to the clean pass |
| Replay.Convergence | indexer/src/stream/writer.rs:84-227 | over any mixture of deliveries, restarts and reconnects that passes over no block, the rows stay those of the clean pass and the cache is right again at the furthest block |
| Replay.ReplayConverges | indexer/src/stream/writer.rs:66-70 | from an empty database, any such run ends in the tables of one clean pass, LP supplies in swap rows and the checkpoint included |
| Replay.BroadcastOnce | indexer/src/stream/writer.rs:51-64 | over any such run no row is handed to the broadcaster twice |
| KeyOrder.TextLeIff | indexer/src/stream/writer.rs:97-102 | texts compare at the first place where they differ, the shorter one first if there is none |
| KeyOrder.FoldOrder | indexer/src/stream/writer.rs:97-102 | a block is folded with each of its events once, by signature, and within a transaction by rising index |
| KeyOrder.OrderedStay | indexer/src/stream/writer.rs:92-102 | a block keeps its own order exactly when that order already is the one by signature and rising index |
| KeyOrder.StoredOrder | indexer/src/stream/writer.rs:97-102 | the stored reserves rows stand by rising slot, then signature, then rising index |
| KeyOrder.LatestIff | indexer/src/domain/reserves.rs:36-56 | the row served as latest is a stored one such that no other of the pool has a higher slot, nor in its slot a later signature, nor under its signature a higher index |
| KeyOrder.LoadedIff | indexer/src/stream/writer.rs:236-245 | after a clean pass the row a restart loads is that very row |
| KeyOrder.LoadedRule | indexer/src/stream/writer.rs:236-245 | in any table a restart loads, of a pool's rows in its highest slot, the one inserted last |
| LatestRows.LatestMirrorsCache | indexer/src/domain/reserves.rs:36-56 | after every clean block the row served as latest is the last one folded in, and carries the supply in the writer's cache |
| History.Pass2Continues | indexer/src/stream/writer.rs:142-203 | the two-cache loop extends the history of rows read off the list of events alone |
| History.CleanIsHistory | indexer/src/stream/writer.rs:142-207 | a clean pass stores exactly one reserves row per event of each listed pool, with the supply its last creation, deposit or withdrawal reported, and one row per swap or liquidity event |
| StoredRows.StoredRowsMatch | indexer/src/stream/translate.rs:34-131 | the reserves, swap and liquidity tables are, row for row, the folded events of the listed pools, with every column from the field it belongs to, direction included |
| StoredRows.StoredPoolsMatch | indexer/src/stream/translate.rs:34-48 | the pools table has one row per pool whose creation was folded, with every column from the pool's first creation |
| StoredRows.RowedIs | indexer/src/stream/writer.rs:142-203 | every event of a listed pool has a reserves row, every swap a swap row, every deposit and withdrawal a liquidity row, and nothing else has one |
| StoredRows.SupplyIsLastReported | indexer/src/stream/writer.rs:158-203 | the supply carried into a row is that of the pool's last event which is no swap |
| StoredRows.SignedColumn | indexer/src/stream/translate.rs:5-7 | a column holds its number as it is below 2^63 and less 2^64 from there on |
| StoredRows.InsertRule | indexer/src/domain/reserves.rs:82-109 | an insert stores and returns exactly the rows whose (signature, index) is neither stored nor earlier in the batch, in order |
| ChainOrder.OfSort | indexer/src/stream/writer.rs:97-102 | sorting a block and then looking at one pool gives the sort of that pool's events |
| ChainOrder.OrdersAgree | docs/indexer.md:182 | fold order and chain order have the same events for a pool, in the same order exactly when its keys do not decrease in any block |
| KeyOrder.ChainOrderByKeys | docs/indexer.md:182 | the stored rows of a pool, order and supplies included, are those of folding in chain order if and only if in each block its events stand by signature and, within a transaction, by rising index |
| ChainOrder.ChainOrderEverywhere | docs/indexer.md:182 | then its swap and liquidity rows are the chain's as well |
| ChainOrder.LatestIsChains | indexer/src/domain/reserves.rs:36-56 | then the row served as latest is that of the last event the chain ran, with the supply of the chain's order |
| ChainOrder.ReorderedBlock | indexer/src/stream/writer.rs:92-102 | a valid stream for which it is not: the swap is stored with the supply from before the deposit, and the deposit is served as the latest |
| PoolFeed.EmissionReports | programs/deep_pool/src/instructions/add_liquidity.rs:215-236 | over any run of a pool, its last reported supply exceeds the real one by exactly the LP burnt since, and its last reported reserves lack exactly what was given since |
| PoolFeed.ServedRowIffReported | indexer/src/stream/writer.rs:169-179 | the supply of the row served for a pool is the pool's own if and only if no LP was burnt since its last creation, deposit or withdrawal, and each reserve if and only if nothing was given to that side since the last event |
| BlockWriter.InsertRows | indexer/src/domain/reserves.rs:84-109 | the insert adds, in order, the rows whose key is neither stored nor earlier in the batch, and returns them |
| BlockWriter.InsertPools | indexer/src/domain/pool.rs:57-86 | conflicting pools are passed over while the id sequence moves on; ids stay distinct |
| BlockWriter.ResolvePools | indexer/src/stream/writer.rs:104-140 | after pass 1 the id cache knows a pool of the block exactly when the table has it, under its id |
| BlockWriter.BuildBatch | indexer/src/stream/writer.rs:142-203 | pass 2 on ids builds the rows and cache of pass 2 on keys |
| BlockWriter.LoadPoolCache | indexer/src/stream/writer.rs:229-234 | a new process knows every stored pool by its id |
| BlockWriter.LoadRepresents | indexer/src/stream/writer.rs:236-245 | the supplies loaded by id are those loaded by key |
| BlockWriter.Writer.WriteBlock | indexer/src/stream/writer.rs:84-227 | one block on serial ids ends in the tables, caches and returned rows of the model on keys |
| BlockWriter.Writer.RunWriter | indexer/src/stream/writer.rs:24-75 | a process's whole life, from loading its caches through whatever blocks it receives, reconnects included: database, cache and the rows it published are those of the machine that convergence and single broadcast are about |

## Left out

- Anchor's account validation, PDAs, signers, the rent lookup and the mint-extension blocklist: rent is a parameter of the pool.
- The payer's side of a transfer: that a payer cannot pay is not told apart from a step nobody submits.
- The moment at which a handler emits its event: handlers return their metrics, and `PoolFeed` says which event belongs to which accepted step.
- `calc_proportional`, the floored variant that no instruction calls.
- `read_twap` for tokens per SOL: the head is kept and proved, but the program has no reader for it.
- SHA-256: the four discriminators are the literals of `packages/sdk/src/events.ts:13-18`.
- Which of a mint's two transfer-fee settings is active: the quote takes the newer one, and the agreement with the swap is for the fee the mint then applies.
- The router's account metas and the parsing of accounts into the mirror.
- Base58 text of keys and the `created_at` columns: pools are named by their key, rows have no time stamp.
- `BlockWriter.Writer.WriteBlock`: a failed or rolled-back write in a live process is not modelled; the caches change before the commit there, so convergence is about restarts and reconnects.
- `Replay.ReplayConverges`: assumes a stream in slot order in which a pool's creation never comes in a later block than its other events, with unique (signature, index) keys, and no start at the chain's tip. The subscriber starts there when the checkpoint is older than the provider keeps (`indexer/src/stream/grpc.rs:25-28`), and, since its resume slot stays 0, on every reconnect of a process that began with no checkpoint or one within the reorg buffer (`indexer/src/main.rs:55-58`, `indexer/src/stream/grpc.rs:38-47`, `indexer/src/stream/grpc.rs:105-108`); blocks passed over that way are never stored.
- `LatestRows.LatestMirrorsCache`: assumes that the database orders text by its bytes.
- `indexer/src/stream/backfill.rs`: it walks from new to old, so carrying the supply forward does not apply to it.
- Network, HTTP, configuration and query services of the indexer, the SDK's floating-point quotes and event bus, the simulator and the user interface.
