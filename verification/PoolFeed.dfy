/** From the pool to the tables: what the row served as a pool's latest says about the pool itself.
    The four instructions emit an event with the state they leave; donations and LP burns do not. */
module PoolFeed {
  import opened Numbers
  import opened Ledger
  import opened Solvency
  import opened EventCodec
  import opened Indexer
  import opened Replay
  import opened History
  import opened ChainOrder

  // ----- the events of a pool -----

  /** The event of a pool's creation; who and what it names besides the state is free. */
  predicate IsCreationOf(e: Event, born: Pool, k: Key) {
    && e.PoolCreated? && e.pool == k
    && e.tokensInNet == born.vault && e.lpLocked == born.locked && e.lpToCreator + e.lpLocked == born.supply
    && e.solReserveAfter == born.SolReserve() && e.tokenReserveAfter == born.vault
    && e.lpSupplyAfter == born.supply
  }

  predicate Emits(p: Pool, step: Step)
    requires p.oracle.WellFormed()
  {
    (step.SwapStep? || step.AddStep? || step.RemoveStep?) && Attempt(p, step).Success?
  }

  /** The event that an accepted step on p emits. */
  predicate IsEventOf(e: Event, p: Pool, step: Step, k: Key)
    requires p.oracle.WellFormed() && Emits(p, step)
  {
    match step
    case SwapStep(args, now, net) =>
      var (q, m) := Ledger.Swap(p, args, now, net).value;
      && e.SwapExecuted?
      && e == SwapExecuted(k, e.user, e.solSource, args.buy, m.amountInGross, m.amountInNet, m.amountOutGross,
                           m.amountOutNet, m.fee, q.SolReserve(), q.vault)
    case AddStep(provider, args, net) =>
      var (q, m) := Add(p, provider, args, net).value;
      && e.LiquidityAdded?
      && e == LiquidityAdded(k, e.provider, m.solIn, m.solIn, args.tokenAmount, m.tokensIn, m.lpToProvider, m.lpLocked,
                             q.SolReserve(), q.vault, q.supply)
    case RemoveStep(provider, args, net) =>
      var (q, m) := Remove(p, provider, args, net).value;
      && e.LiquidityRemoved?
      && e == LiquidityRemoved(k, e.provider, args.lpAmount, m.solOut, m.solOut, m.tokensOutGross, m.tokensOutNet,
                               q.SolReserve(), q.vault, q.supply)
    case _ => false
  }

  /** es are the events of the pool's creation and of the steps since, in order. */
  ghost predicate Emission(es: seq<DecodedEvent>, born: Pool, steps: seq<Step>, k: Key)
    requires born.oracle.WellFormed()
    decreases |steps|
  {
    es != []
    && var e := es[|es| - 1].event;
       if steps == [] then |es| == 1 && IsCreationOf(e, born, k)
       else
         var init, step := steps[..|steps| - 1], steps[|steps| - 1];
         var p := Run(born, init);
         if Emits(p, step) then IsEventOf(e, p, step, k) && Emission(es[..|es| - 1], born, init, k)
         else Emission(es, born, init, k)
  }

  // ----- what no event reports -----

  /** LP burnt since the last creation, deposit or withdrawal. */
  function BurntSince(born: Pool, steps: seq<Step>): nat
    requires born.oracle.WellFormed()
    decreases |steps|
  {
    if steps == [] then 0
    else
      var init, step := steps[..|steps| - 1], steps[|steps| - 1];
      var p := Run(born, init);
      if Emits(p, step) && !step.SwapStep? then 0
      else BurntSince(born, init) + if step.BurnLp? && Attempt(p, step).Success? then step.amount else 0
  }

  /** Lamports given since the last event. */
  function SolGivenSince(born: Pool, steps: seq<Step>): nat
    requires born.oracle.WellFormed()
    decreases |steps|
  {
    if steps == [] then 0
    else
      var init, step := steps[..|steps| - 1], steps[|steps| - 1];
      var p := Run(born, init);
      if Emits(p, step) then 0
      else SolGivenSince(born, init) + if step.DonateSol? && Attempt(p, step).Success? then step.amount else 0
  }

  /** Tokens given since the last event. */
  function TokensGivenSince(born: Pool, steps: seq<Step>): nat
    requires born.oracle.WellFormed()
    decreases |steps|
  {
    if steps == [] then 0
    else
      var init, step := steps[..|steps| - 1], steps[|steps| - 1];
      var p := Run(born, init);
      if Emits(p, step) then 0
      else TokensGivenSince(born, init) + if step.DonateTokens? && Attempt(p, step).Success? then step.net else 0
  }

  // ----- what the events report -----

  lemma {:induction false} RunNext(p: Pool, steps: seq<Step>, step: Step)
    requires p.oracle.WellFormed()
    ensures Run(p, steps + [step]) == Apply(Run(p, steps), step)
    decreases |steps|
  {
    if steps == [] {
      assert [step][1..] == [];
      assert [] + [step] == [step];
    } else {
      assert (steps + [step])[1..] == steps[1..] + [step];
      RunNext(Apply(p, steps[0]), steps[1..], step);
    }
  }

  /** A step without an event moves only what is given or burnt. */
  lemma SilentStep(p: Pool, step: Step)
    requires Alive(p) && !Emits(p, step)
    ensures var q := Apply(p, step);
            && q.supply + (if step.BurnLp? && Attempt(p, step).Success? then step.amount else 0) == p.supply
            && q.SolReserve() == p.SolReserve() + (if step.DonateSol? && Attempt(p, step).Success? then step.amount else 0)
            && q.vault == p.vault + (if step.DonateTokens? && Attempt(p, step).Success? then step.net else 0)
  {
    hide Ledger.Swap, Add, Remove;
  }

  /** A step with an event reports the state it leaves; a swap leaves the supply. */
  lemma EventReports(e: Event, p: Pool, step: Step, k: Key)
    requires Alive(p) && Emits(p, step) && IsEventOf(e, p, step, k)
    ensures var q := Apply(p, step);
            && e.pool == k && e.solReserveAfter == q.SolReserve() && e.tokenReserveAfter == q.vault
            && e.SwapExecuted? == step.SwapStep?
            && (if step.SwapStep? then q.supply == p.supply else e.lpSupplyAfter == q.supply)
  {
    hide Alive, Ledger.Swap, Add, Remove;
    if step.SwapStep? {
      StepSafe(p, step);
    }
  }

  ghost predicate Reports(es: seq<DecodedEvent>, q: Pool, burnt: nat, sol: nat, tok: nat, k: Key) {
    && es != []
    && q.supply + burnt <= U64_MAX
    && SupplyAfter(es, k) == AsI64(q.supply + burnt)
    && var e := es[|es| - 1].event;
       e.solReserveAfter + sol == q.SolReserve() && e.tokenReserveAfter + tok == q.vault
  }

  /** The last event and the last reported supply, against the pool as it is. */
  lemma {:induction false} EmissionReports(es: seq<DecodedEvent>, born: Pool, steps: seq<Step>, k: Key)
    requires Alive(born) && Emission(es, born, steps, k)
    ensures Alive(Run(born, steps))
    ensures Reports(es, Run(born, steps), BurntSince(born, steps), SolGivenSince(born, steps),
                    TokensGivenSince(born, steps), k)
    decreases |steps|
  {
    if steps == [] {
      BirthReports(es, born, k);
    } else {
      var init, step := steps[..|steps| - 1], steps[|steps| - 1];
      var p := Run(born, init);
      assert steps == init + [step];
      RunNext(born, init, step);
      SinceNext(born, init, step);
      var event := Emits(p, step);
      var es' := if event then es[..|es| - 1] else es;
      assert Emission(es', born, init, k);
      assert event ==> es != [] && IsEventOf(es[|es| - 1].event, p, step, k);
      hide Alive, Run, Apply, Attempt, IsEventOf, Reports, Emission, Emits, BurntSince, SolGivenSince, TokensGivenSince;
      EmissionReports(es', born, init, k);
      if event {
        EventUpdates(es, p, step, BurntSince(born, init), SolGivenSince(born, init), TokensGivenSince(born, init), k);
      } else {
        SilenceUpdates(es, p, step, BurntSince(born, init), SolGivenSince(born, init), TokensGivenSince(born, init), k);
      }
      StepSafe(p, step);
    }
  }

  lemma SinceNext(born: Pool, init: seq<Step>, step: Step)
    requires born.oracle.WellFormed()
    ensures var p, steps := Run(born, init), init + [step];
            var done, event := Attempt(p, step).Success?, Emits(p, step);
            && BurntSince(born, steps) ==
                 (if event then if step.SwapStep? then BurntSince(born, init) else 0
                  else BurntSince(born, init) + if step.BurnLp? && done then step.amount else 0)
            && SolGivenSince(born, steps) ==
                 (if event then 0 else SolGivenSince(born, init) + if step.DonateSol? && done then step.amount else 0)
            && TokensGivenSince(born, steps) ==
                 (if event then 0 else TokensGivenSince(born, init) + if step.DonateTokens? && done then step.net else 0)
  {
    assert (init + [step])[..|init|] == init;
    hide Run, Attempt;
  }

  lemma BirthReports(es: seq<DecodedEvent>, born: Pool, k: Key)
    requires |es| == 1 && IsCreationOf(es[0].event, born, k)
    ensures Reports(es, born, 0, 0, 0, k)
  {
    assert es == [] + [es[0]];
    SupplyNext([], es[0], k);
  }

  lemma EventUpdates(es: seq<DecodedEvent>, p: Pool, step: Step, burnt: nat, sol: nat, tok: nat, k: Key)
    requires Alive(p) && Emits(p, step) && es != [] && IsEventOf(es[|es| - 1].event, p, step, k)
    requires Reports(es[..|es| - 1], p, burnt, sol, tok, k)
    ensures Reports(es, Apply(p, step), if step.SwapStep? then burnt else 0, 0, 0, k)
  {
    var e := es[|es| - 1];
    assert es == es[..|es| - 1] + [e];
    EventReports(e.event, p, step, k);
    SupplyNext(es[..|es| - 1], e, k);
    hide Alive, Apply, Attempt, IsEventOf, SupplyAfter;
  }

  lemma SilenceUpdates(es: seq<DecodedEvent>, p: Pool, step: Step, burnt: nat, sol: nat, tok: nat, k: Key)
    requires Alive(p) && !Emits(p, step) && Reports(es, p, burnt, sol, tok, k)
    ensures var done := Attempt(p, step).Success?;
            Reports(es, Apply(p, step),
                    burnt + (if step.BurnLp? && done then step.amount else 0),
                    sol + (if step.DonateSol? && done then step.amount else 0),
                    tok + (if step.DonateTokens? && done then step.net else 0), k)
  {
    SilentStep(p, step);
    hide Alive, Apply, Attempt, SupplyAfter;
  }

  lemma SignedApart(a: u64, b: u64)
    ensures AsI64(a) == AsI64(b) <==> a == b
  {
  }

  /** The row that is served as the latest of a pool whose events stand in key order. Its supply is
      the pool's own exactly when no LP was burnt since the last creation, deposit or withdrawal,
      and each reserve exactly when nothing was given to that side since the last event. */
  lemma ServedRowIffReported(blocks: seq<BlockBatch>, r: Keyed<Key, Reserves>, born: Pool, steps: seq<Step>)
    requires ValidStream(blocks) && r.pool in Known(blocks) && InKeyOrder(blocks, r.pool)
    requires Alive(born) && Emission(Of(ChainEvents(blocks), r.pool), born, steps, r.pool)
    requires IsLatest(CleanTables(blocks).reserves, r)
    ensures var q := Run(born, steps);
            && (r.row.lpSupply == AsI64(q.supply) <==> BurntSince(born, steps) == 0)
            && (r.row.solReserve == AsI64(q.SolReserve()) <==> SolGivenSince(born, steps) == 0)
            && (r.row.tokenReserve == AsI64(q.vault) <==> TokensGivenSince(born, steps) == 0)
  {
    assert born.oracle.WellFormed();
    hide *;
    var k := r.pool;
    var ran := Of(ChainEvents(blocks), k);
    LatestIsChains(blocks, r);
    SupplyOf(ChainEvents(blocks), k);
    EmissionReports(ran, born, steps, k);
    RowIffReported(r, ran, Run(born, steps), BurntSince(born, steps), SolGivenSince(born, steps),
                   TokensGivenSince(born, steps));
  }

  lemma RowIffReported(r: Keyed<Key, Reserves>, es: seq<DecodedEvent>, q: Pool, burnt: nat, sol: nat, tok: nat)
    requires es != [] && Reports(es, q, burnt, sol, tok, r.pool)
    requires r == NewReserves(r.pool, SupplyAfter(es, r.pool), es[|es| - 1])
    ensures r.row.lpSupply == AsI64(q.supply) <==> burnt == 0
    ensures r.row.solReserve == AsI64(q.SolReserve()) <==> sol == 0
    ensures r.row.tokenReserve == AsI64(q.vault) <==> tok == 0
  {
    hide AsI64, SupplyAfter;
    var e := es[|es| - 1].event;
    SignedApart(q.supply + burnt, q.supply);
    SignedApart(e.solReserveAfter, q.SolReserve());
    SignedApart(e.tokenReserveAfter, q.vault);
  }
}
