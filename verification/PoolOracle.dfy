/** The oracle inside a living pool: which steps record, with which reserves, and that the
    account refines the unbounded log after every run of instructions. */
module PoolOracle {
  import opened Wrappers
  import opened Numbers
  import opened PoolMath
  import opened Oracle
  import opened OracleLog
  import opened Ledger
  import opened Solvency
  import opened Guarantees

  /** The records of a run: one per accepted swap, with the reserves just before that swap. */
  function Records(p: Pool, steps: seq<Step>): seq<Call>
    requires p.oracle.WellFormed()
    decreases |steps|
  {
    if steps == [] then []
    else
      (if steps[0].SwapStep? && Attempt(p, steps[0]).Success?
       then [Call(p.SolReserve(), p.vault, steps[0].now)] else [])
      + Records(Apply(p, steps[0]), steps[1..])
  }

  /** An accepted swap records the reserves it found; no other step touches the oracle, and a
      refused swap leaves no trace of its record. */
  lemma StepRecords(p: Pool, step: Step)
    requires p.oracle.WellFormed()
    ensures Apply(p, step).oracle ==
              if step.SwapStep? && Attempt(p, step).Success?
              then Record(p.oracle, p.SolReserve(), p.vault, step.now).value
              else p.oracle
    ensures step.SwapStep? && Attempt(p, step).Success? ==>
              Record(p.oracle, p.SolReserve(), p.vault, step.now).Some?
  {
    hide Record, CalcSwapFee, CalcSwapOutput, CalcLpMint, CalcLpRedeem, CalcProportionalCeil, ProviderLock;
  }

  lemma {:induction false} RunRecords(p: Pool, steps: seq<Step>)
    requires p.oracle.WellFormed()
    ensures Run(p, steps).oracle == RunOracle(p.oracle, Records(p, steps))
    decreases |steps|
  {
    if steps != [] {
      var q := Apply(p, steps[0]);
      StepRecords(p, steps[0]);
      hide Apply, Attempt, Record;
      RunRecords(q, steps[1..]);
      var rest := Records(q, steps[1..]);
      if Records(p, steps) != rest {
        assert Records(p, steps)[1..] == rest;
      }
    }
  }

  /** From its creation on, whatever happens to a pool, its oracle account is the ring and the
      wrapped heads of the log of what its swaps recorded. */
  lemma LifeRefines(rent: u64, prefunded: u64, p: Pool, creator: Holder, args: CreateArgs, net: u64, now: u64,
                    born: Pool, steps: seq<Step>)
    requires Uninitialised(rent, prefunded) == Some(p)
    requires Create(p, creator, args, net, now) == Success(born)
    ensures Refines(Run(born, steps).oracle, RunLog(EmptyLog(now), Records(born, steps)))
  {
    var _ := CreateEffect(rent, prefunded, p, creator, args, net, now, born);
    hide Create;
    RunRecords(born, steps);
    InitRefines(now);
    RunRefines(born.oracle, EmptyLog(now), Records(born, steps));
  }

  lemma {:induction false} NoSwapsNoRecords(p: Pool, steps: seq<Step>)
    requires p.oracle.WellFormed() && NoSwaps(steps)
    ensures Records(p, steps) == []
    decreases |steps|
  {
    if steps != [] {
      NoSwapsNoRecords(Apply(p, steps[0]), steps[1..]);
    }
  }

  // ----- the price moves between records -----

  /** The design notes say the price changes only on swaps, deposits and withdrawals being neutral.
      A deposit of `net` tokens keeps the reserves in proportion exactly when its share of the SOL
      is a whole number of lamports. Either way nothing is recorded. */
  lemma DepositNeutralIff(p: Pool, provider: Holder, args: AddArgs, net: u64, q: Pool, m: AddMetrics)
    requires Alive(p) && Add(p, provider, args, net) == Success((q, m))
    ensures q.oracle == p.oracle && p.vault > 0
    ensures q.SolReserve() * p.vault == p.SolReserve() * q.vault <==> net * p.SolReserve() % p.vault == 0
  {
    AliveHasReserves(p);
    AddGrowsShares(p, provider, args, net, q, m);
    AddIsExact(p, provider, args, net, q, m);
    var s, t := p.SolReserve(), p.vault;
    assert q.SolReserve() == s + m.solIn && q.vault == t + net;
    hide *;
    ChargeIsExactIff(s, t, net, m.solIn);
  }

  lemma ChargeIsExactIff(s: nat, t: nat, n: nat, charge: nat)
    requires t > 0 && (charge - 1) * t < n * s <= charge * t
    ensures (s + charge) * t == s * (t + n) <==> n * s % t == 0
  {
    OneMore(charge, t);
    assert (s + charge) * t == s * t + charge * t && s * (t + n) == s * t + n * s;
    if charge * t == n * s {
      MultipleHasNoRest(charge, t);
    } else if n * s % t == 0 {
      OnlyMultiple(n * s / t, charge, t);
    }
  }

  lemma MultipleHasNoRest(a: nat, d: nat)
    requires d > 0
    ensures a * d % d == 0
  {
    DivIs(a * d, d, a);
  }

  /** The one multiple of t above (c-1)*t and up to c*t. */
  lemma OnlyMultiple(k: int, c: int, t: int)
    requires t > 0 && (c - 1) * t < k * t <= c * t
    ensures k == c
  {
    if k < c {
      MulMono(k, c - 1, t);
    } else if k > c {
      MulMono(c + 1, k, t);
      OneMore(c, t);
    }
  }

  /** A redemption of b LP keeps them in proportion exactly when its two floored payouts are. */
  lemma WithdrawalNeutralIff(p: Pool, provider: Holder, args: RemoveArgs, net: u64, q: Pool, m: RemoveMetrics)
    requires Alive(p) && Remove(p, provider, args, net) == Success((q, m))
    ensures q.oracle == p.oracle && p.supply > 0
    ensures q.SolReserve() * p.vault == p.SolReserve() * q.vault
            <==> ((args.lpAmount * p.SolReserve() / p.supply) * p.vault
                  == (args.lpAmount * p.vault / p.supply) * p.SolReserve())
  {
    AliveHasReserves(p);
    BalanceBounded(p, provider);
    RemoveGrowsShares(p, provider, args, net, q, m);
    RemoveParts(p, provider, args, net, q, m);
    var s, t := p.SolReserve(), p.vault;
    assert q.SolReserve() == s - m.solOut && q.vault == t - m.tokensOutGross;
    hide *;
    var x := LpRedeemFloor(args.lpAmount, s, p.supply);
    var y := LpRedeemFloor(args.lpAmount, t, p.supply);
    DivIs(args.lpAmount * s, p.supply, x);
    DivIs(args.lpAmount * t, p.supply, y);
    PaidInProportionIff(s, t, x, y);
  }

  lemma PaidInProportionIff(s: int, t: int, x: int, y: int)
    ensures (s - x) * t == s * (t - y) <==> x * t == y * s
  {
    assert (s - x) * t == s * t - x * t && s * (t - y) == s * t - y * s;
  }

  /** Over any run of deposits the price never falls, while no record is written: the next swap
      books the whole interval at the price it finds. */
  lemma UnrecordedPriceOnlyRises(p: Pool, steps: seq<Step>)
    requires Alive(p) && AddsOnly(steps)
    ensures Run(p, steps).oracle == p.oracle
    ensures PriceQ64(p.SolReserve(), p.vault).Some?
    ensures PriceQ64(Run(p, steps).SolReserve(), Run(p, steps).vault).Some?
    ensures PriceQ64(p.SolReserve(), p.vault).value
         <= PriceQ64(Run(p, steps).SolReserve(), Run(p, steps).vault).value
  {
    AliveHasReserves(p);
    AddsRaisePrice(p, steps);
    assert NoSwaps(steps);
    NoSwapsNoRecords(p, steps);
    RunRecords(p, steps);
    var q := Run(p, steps);
    hide Run, RunOracle, Alive;
    PriceOrder(p.SolReserve(), p.vault, q.SolReserve(), q.vault);
  }

  /** Tokens sent to a live pool never raise its price, and always change the proportion. */
  lemma TokenDonationLowersPrice(p: Pool, gross: u64, net: u64)
    requires Alive(p) && net > 0 && TokensIn(p, gross, net).Success?
    ensures var q := Apply(p, DonateTokens(gross, net));
            && q.oracle == p.oracle
            && q.SolReserve() * p.vault < p.SolReserve() * q.vault
            && PriceQ64(p.SolReserve(), p.vault).Some? && PriceQ64(q.SolReserve(), q.vault).Some?
            && PriceQ64(q.SolReserve(), q.vault).value <= PriceQ64(p.SolReserve(), p.vault).value
  {
    AliveHasReserves(p);
    var q := Apply(p, DonateTokens(gross, net));
    assert q.SolReserve() == p.SolReserve() && q.vault == p.vault + net;
    hide Alive, Apply;
    MulStrict(p.vault, q.vault, p.SolReserve());
    PriceOrder(q.SolReserve(), q.vault, p.SolReserve(), p.vault);
  }

  /** Any lamport sent to a live pool strictly raises its price and records nothing. */
  lemma DonationMovesPrice(p: Pool, amount: u64)
    requires Alive(p) && amount > 0 && SolIn(p, amount).Success?
    ensures var q := Apply(p, DonateSol(amount));
            && q.oracle == p.oracle
            && PriceQ64(p.SolReserve(), p.vault).Some? && PriceQ64(q.SolReserve(), q.vault).Some?
            && PriceQ64(p.SolReserve(), p.vault).value < PriceQ64(q.SolReserve(), q.vault).value
  {
    AliveHasReserves(p);
    var q := Apply(p, DonateSol(amount));
    assert q.SolReserve() == p.SolReserve() + amount && q.vault == p.vault;
    hide Alive, Apply;
    PriceQ64Floor(p.SolReserve(), p.vault);
    PriceQ64Floor(q.SolReserve(), q.vault);
    MulMono(1, amount, TWO_64);
    StrictlyHigher(p.SolReserve() * TWO_64, q.SolReserve() * TWO_64, p.vault,
                   PriceQ64(p.SolReserve(), p.vault).value, PriceQ64(q.SolReserve(), q.vault).value);
  }

  lemma StrictlyHigher(n: nat, n': nat, d: nat, a: nat, b: nat)
    requires n + d <= n'
    requires a * d <= n && n' < b * d + d
    ensures a < b
  {
    if b <= a {
      MulMono(b, a, d);
    }
  }

  lemma PriceOrder(s: u64, t: u64, s': u64, t': u64)
    requires t > 0 && t' > 0 && s' * t >= s * t'
    ensures PriceQ64(s, t).Some? && PriceQ64(s', t').Some?
    ensures PriceQ64(s, t).value <= PriceQ64(s', t').value
  {
    PriceQ64Floor(s, t);
    PriceQ64Floor(s', t');
    var a := PriceQ64(s, t).value;
    hide PriceQ64;
    // a*t <= s*2^64, so a*t'*t <= s*2^64*t' <= s'*2^64*t
    MulMono(a * t, s * TWO_64, t');
    MulMono(s * t', s' * t, TWO_64);
    assert (a * t) * t' == (a * t') * t;
    assert (s * TWO_64) * t' == (s * t') * TWO_64;
    assert (s' * t) * TWO_64 == (s' * TWO_64) * t;
    MulCancel(a * t', s' * TWO_64, t);
    DivAtLeast(s' * TWO_64, t', a);
    DivIs(s' * TWO_64, t', PriceQ64(s', t').value);
  }
}
