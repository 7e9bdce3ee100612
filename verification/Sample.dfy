/** One pool in numbers: the premises of the theorems about accepted instructions are met, and
    each documented promise that the code does not keep fails on a concrete input. */
module Sample {
  import opened Wrappers
  import opened Numbers
  import opened PoolMath
  import opened Oracle
  import opened Ledger
  import opened OracleLog
  import opened OracleReads
  import opened OracleLaws
  import opened Solvency
  import opened BornPool

  const RENT: u64 := 6_000_000

  /** The smallest pool that can be created: 5 SOL and 5 tokens. */
  const BORN := Pool(RENT, 5_006_000_000, 5_000_000, 158_112_883, 31_622_576, map[0 := 126_490_307], InitOracle(100))

  lemma Birth()
    ensures Uninitialised(RENT, 0).Some?
    ensures Create(Uninitialised(RENT, 0).value, 0, CreateArgs(5_000_000, 5_000_000_000), 5_000_000, 100)
         == Success(BORN)
    ensures Alive(BORN)
  {
    assert CreatorLock(158_112_883) == 31_622_576;
    hide InitialLp, CreatorLock, InitOracle, FloorSqrt, Alive;
    SmallestSupply();
    var p := Uninitialised(RENT, 0).value;
    CreateAlive(RENT, 0, p, 0, CreateArgs(5_000_000, 5_000_000_000), 5_000_000, 100, BORN);
  }

  lemma SmallestSupply()
    ensures InitialLp(5_000_000_000, 5_000_000) == Success(158_112_883)
  {
    hide FloorSqrt;
    var product: nat := 5_000_000_000 * 5_000_000;
    FloorSqrtUnique(product, 158_113_883);
  }

  const BUY := SwapArgs(1_000_000_000, 831_596, true)
  const SELL := SwapArgs(831_596, 0, false)
  const BOUGHT := SwapMetrics(1_000_000_000, 1_000_000_000, 831_596, 831_596, 2_500_000)
  const SOLD := SwapMetrics(831_596, 831_596, 995_835_469, 995_835_469, 2_078)

  /** A SOL buys tokens, and selling them back returns a little less. */
  lemma BuyAndSellBack()
    ensures var q := BORN.(lamports := 6_006_000_000, vault := 4_168_404);
            && Swap(BORN, BUY, 100, 831_596) == Success((q, BOUGHT))
            && Swap(q, SELL, 100, 831_596) == Success((BORN.(lamports := 5_010_164_531), SOLD))
  {
    assert CalcSwapFee(1_000_000_000) == Some(2_500_000) && CalcSwapFee(831_596) == Some(2_078);
    assert CalcSwapOutput(997_500_000, 5_000_000_000, 5_000_000) == Some(831_596);
    assert CalcSwapOutput(829_518, 4_168_404, 6_000_000_000) == Some(995_835_469);
    assert Record(BORN.oracle, 5_000_000_000, 5_000_000, 100) == Some(BORN.oracle);
    assert Record(BORN.oracle, 6_000_000_000, 4_168_404, 100) == Some(BORN.oracle);
    hide CalcSwapFee, CalcSwapOutput, Record, InitOracle;
  }

  const DEPOSIT := AddArgs(1_000_000, 1_000_000_000, 31_622_576)
  const ADDED := AddMetrics(1_000_000_000, 1_000_000, 29_250_883, 2_371_693)
  const REDEMPTION := RemoveArgs(29_250_883, 0, 0)
  const REMOVED := RemoveMetrics(924_999_991, 924_999, 924_999)

  /** A deposit of one token, and the redemption of all the LP it gave. */
  lemma AddAndRedeem()
    ensures var q := Pool(RENT, 6_006_000_000, 6_000_000, 189_735_459, 33_994_269,
                          map[0 := 126_490_307, 7 := 29_250_883], InitOracle(100));
            && Add(BORN, 7, DEPOSIT, 1_000_000) == Success((q, ADDED))
            && Remove(q, 7, REDEMPTION, 924_999).Success?
            && Remove(q, 7, REDEMPTION, 924_999).value.1 == REMOVED
  {
    assert CalcProportionalCeil(1_000_000, 5_000_000, 5_000_000_000) == Some(1_000_000_000);
    assert CalcLpMint(158_112_883, 1_000_000, 5_000_000) == Some(31_622_576);
    assert ProviderLock(31_622_576) == 2_371_693;
    assert CalcLpRedeem(29_250_883, 6_000_000_000, 189_735_459) == Some(924_999_991);
    assert CalcLpRedeem(29_250_883, 6_000_000, 189_735_459) == Some(924_999);
    hide CalcProportionalCeil, CalcLpMint, CalcLpRedeem, ProviderLock, InitOracle;
  }

  // ----- promises that fail -----

  /** With a transfer fee of 1% the same creation is accepted, but its creator cannot leave. */
  lemma FeeTrapsCreator()
    ensures var born := Create(Uninitialised(RENT, 0).value, 0, CreateArgs(5_000_000, 5_000_000_000), 4_950_000, 100);
            && born.Success?
            && Remove(born.value, 0, RemoveArgs(born.value.Balance(0), 0, 0), 0) == Failure(MinimumLiquidityRequired)
  {
    assert CreatorLock(157_320_327) == 31_464_065;
    hide InitialLp, CreatorLock, InitOracle, FloorSqrt, Remove;
    TaxedSupply();
    var p := Uninitialised(RENT, 0).value;
    var args := CreateArgs(5_000_000, 5_000_000_000);
    var born := Create(p, 0, args, 4_950_000, 100).value;
    hide Create, Uninitialised;
    CreatorExitIff(RENT, 0, p, 0, args, 4_950_000, 100, born);
  }

  lemma TaxedSupply()
    ensures InitialLp(5_000_000_000, 4_950_000) == Success(157_320_327)
  {
    hide FloorSqrt;
    var product: nat := 5_000_000_000 * 4_950_000;
    FloorSqrtUnique(product, 157_321_327);
  }

  /** A sell of five times the token reserve leaves less SOL than the locked LP's share of it. */
  lemma SellBreaksSolFloor()
    ensures var q := BORN.(lamports := 841_073_069, vault := 30_000_000);
            && Swap(BORN, SwapArgs(25_000_000, 0, false), 100, 25_000_000)
               == Success((q, SwapMetrics(25_000_000, 25_000_000, 4_164_926_931, 4_164_926_931, 62_500)))
            && q.SolReserve() * BORN.supply < BORN.SolReserve() * BORN.locked
  {
    assert CalcSwapFee(25_000_000) == Some(62_500);
    assert CalcSwapOutput(24_937_500, 5_000_000, 5_000_000_000) == Some(4_164_926_931);
    assert Record(BORN.oracle, 5_000_000_000, 5_000_000, 100) == Some(BORN.oracle);
    hide CalcSwapFee, CalcSwapOutput, Record, InitOracle;
  }

  /** One lamport has been given to the pool: now a deposit of a million units raises the price. */
  lemma DepositMovesPrice()
    ensures var p := BORN.(lamports := 5_006_000_001);
            var q := Pool(RENT, 6_006_000_002, 6_000_000, 189_735_459, 33_994_269,
                          map[0 := 126_490_307, 7 := 29_250_883], InitOracle(100));
            && Add(p, 7, AddArgs(1_000_000, 2_000_000_000, 0), 1_000_000)
               == Success((q, AddMetrics(1_000_000_001, 1_000_000, 29_250_883, 2_371_693)))
            && PriceQ64(p.SolReserve(), p.vault) == Some(18_446_744_077_398_900_430_741)
            && PriceQ64(q.SolReserve(), q.vault) == Some(18_446_744_079_858_466_307_236)
  {
    assert CalcProportionalCeil(1_000_000, 5_000_000, 5_000_000_001) == Some(1_000_000_001);
    assert CalcLpMint(158_112_883, 1_000_000, 5_000_000) == Some(31_622_576);
    assert ProviderLock(31_622_576) == 2_371_693;
    assert PriceQ64(5_000_000_001, 5_000_000) == Some(18_446_744_077_398_900_430_741);
    assert PriceQ64(6_000_000_002, 6_000_000) == Some(18_446_744_079_858_466_307_236);
    hide CalcProportionalCeil, CalcLpMint, ProviderLock, InitOracle, PriceQ64;
  }

  /** Redeeming a single unit of LP pays 31 lamports and no token: the price falls. */
  lemma WithdrawalMovesPrice()
    ensures var q := BORN.(lamports := 5_005_999_969, supply := 158_112_882, holders := map[0 := 126_490_306]);
            && Remove(BORN, 0, RemoveArgs(1, 0, 0), 0) == Success((q, RemoveMetrics(31, 0, 0)))
            && PriceQ64(BORN.SolReserve(), BORN.vault) == Some(18_446_744_073_709_551_616_000)
            && PriceQ64(q.SolReserve(), q.vault) == Some(18_446_743_959_339_738_359_000)
  {
    assert CalcLpRedeem(1, 5_000_000_000, 158_112_883) == Some(31);
    assert CalcLpRedeem(1, 5_000_000, 158_112_883) == Some(0);
    assert map[0 := 126_490_307][0 := 126_490_306] == map[0 := 126_490_306];
    assert PriceQ64(5_000_000_000, 5_000_000) == Some(18_446_744_073_709_551_616_000);
    assert PriceQ64(4_999_999_969, 5_000_000) == Some(18_446_743_959_339_738_359_000);
    hide CalcLpRedeem, InitOracle, PriceQ64;
  }

  /** A token sent to a pool with 2^60 - 1 of them lowers the proportion, but not the Q64.64 price. */
  lemma TokenGiftUnseen()
    ensures PriceQ64(5_000_000_000, 0xFFF_FFFF_FFFF_FFFF) == PriceQ64(5_000_000_000, 0x1000_0000_0000_0000)
  {
  }

  const PRICE: nat := 18_446_744_073_709_551_616_000
  const CALLS := [Call(5_000_000_000, 5_000_000, 500), Call(4_000_000_000, 4_000_000, 1000)]

  /** The log of two records at the same price, the second one below the dust floor. */
  const DUSTY := Log(0, [Interval(0, 500, 5_000_000_000, 5_000_000), Interval(500, 1000, 4_000_000_000, 4_000_000)],
                     [Snap(500, 1)])

  /** One price held throughout, but the interval that a read averages over was dust: the mark is
      zero, below every price of its window. */
  lemma DustMark()
    ensures RunLog(EmptyLog(0), CALLS) == DUSTY
    ensures Answered(RunOracle(InitOracle(0), CALLS), DUSTY, 4_000_000, 1000, 500, 0)
    ensures PricesWithin(DUSTY.history, DUSTY.snaps[0].mark, PRICE, PRICE)
    ensures PriceQ64(4_000_000_000, 4_000_000) == Some(PRICE)
    ensures ReadTwap(RunOracle(InitOracle(0), CALLS), 4_000_000_000, 4_000_000, 1000, 500) == Some(0)
  {
    hide RunOracle, RunLog, Refines;
    DustyLog();
    InitRefines(0);
    RunRefines(InitOracle(0), EmptyLog(0), CALLS);
    var o := RunOracle(InitOracle(0), CALLS);
    DustAddsNothing();
    DustyPrices();
    assert LogStart(DUSTY.snaps, 500) == Some(0);
    hide *;
    DustyRead(o);
  }

  lemma DustyRead(o: OracleState)
    requires Refines(o, DUSTY)
    ensures Answered(o, DUSTY, 4_000_000, 1000, 500, 0)
    ensures ReadTwap(o, 4_000_000_000, 4_000_000, 1000, 500) == Some(0)
  {
    assert LogStart(DUSTY.snaps, 500) == Some(0);
    DustAddsNothing();
    DustyPrices();
    hide Refines, PriceQ64, ReadTwap, WindowSum, LogStart, Log.WellFormed;
    assert Answered(o, DUSTY, 4_000_000, 1000, 500, 0);
    ReadExactIffNoWrap(o, DUSTY, 4_000_000_000, 4_000_000, 1000, 500, 0);
  }

  lemma DustyPrices()
    ensures PricesWithin(DUSTY.history, DUSTY.snaps[0].mark, PRICE, PRICE)
    ensures PriceQ64(4_000_000_000, 4_000_000) == Some(PRICE)
  {
  }

  lemma DustyLog()
    ensures RunLog(EmptyLog(0), CALLS) == DUSTY
  {
    var first := DUSTY.(history := [DUSTY.history[0]]);
    assert [] + [DUSTY.history[0]] == first.history && [] + [DUSTY.snaps[0]] == first.snaps;
    assert first.history + [DUSTY.history[1]] == DUSTY.history;
    assert RecordLog(EmptyLog(0), 5_000_000_000, 5_000_000, 500) == Some(first);
    assert RecordLog(first, 4_000_000_000, 4_000_000, 1000) == Some(DUSTY);
    hide RecordLog;
    assert CALLS[1..] == [CALLS[1]] && CALLS[1..][1..] == [];
  }

  lemma DustAddsNothing()
    ensures DUSTY.WellFormed()
    ensures WindowSum(DUSTY, 0, PRICE, 1000) == 0
  {
    var i := DUSTY.history[1];
    assert DUSTY.history == DUSTY.history[..1] + [i] && i.Dust();
  }
}
