/** The oracle in numbers: what a record and a read do, entry by entry, and what the account itself
    shows after any run from creation. */
module OracleRules {
  import opened Wrappers
  import opened Numbers
  import opened PoolMath
  import opened Oracle
  import opened OracleLog
  import opened OracleReads

  // ----- one record -----

  /** A slot that is not new changes nothing; below 5 SOL only the clock moves; from 5 SOL on a
      record fails exactly without tokens. */
  lemma RecordGates(o: OracleState, sol: u64, tok: u64, now: u64)
    requires o.WellFormed()
    ensures now <= o.lastCumSlot ==> Record(o, sol, tok, now) == Some(o)
    ensures now > o.lastCumSlot && sol < 5_000_000_000 ==> Record(o, sol, tok, now) == Some(o.(lastCumSlot := now))
    ensures now > o.lastCumSlot && sol >= 5_000_000_000 ==> (Record(o, sol, tok, now).None? <==> tok == 0)
  {
    PriceQ64Floor(sol, tok);
    PriceQ64Floor(tok, sol);
  }

  /** A trusted record adds, mod 2^128, each Q64.64 price times the slots passed. */
  lemma RecordedHeads(o: OracleState, sol: u64, tok: u64, now: u64)
    requires o.WellFormed() && now > o.lastCumSlot && sol >= 5_000_000_000 && tok > 0
    ensures Record(o, sol, tok, now).Some?
    ensures var r := Record(o, sol, tok, now).value;
            && r.lastCumSlot == now
            && r.cumSolPerTok == (o.cumSolPerTok + sol * 0x1_0000_0000_0000_0000 / tok * (now - o.lastCumSlot)) % TWO_128
            && r.cumTokPerSol == (o.cumTokPerSol + tok * 0x1_0000_0000_0000_0000 / sol * (now - o.lastCumSlot)) % TWO_128
  {
    RecordGates(o, sol, tok, now);
    HeadsAdvanced(o, sol, tok, now);
    hide AdvanceHeads;
  }

  lemma HeadsAdvanced(o: OracleState, sol: u64, tok: u64, now: u64)
    requires now > o.lastCumSlot && sol > 0 && tok > 0
    ensures AdvanceHeads(o, sol, tok, now).Some?
    ensures var r := AdvanceHeads(o, sol, tok, now).value;
            && r.lastCumSlot == now && r.observations == o.observations && r.obsHead == o.obsHead
            && r.cumSolPerTok == (o.cumSolPerTok + sol * 0x1_0000_0000_0000_0000 / tok * (now - o.lastCumSlot)) % TWO_128
            && r.cumTokPerSol == (o.cumTokPerSol + tok * 0x1_0000_0000_0000_0000 / sol * (now - o.lastCumSlot)) % TWO_128
  {
    PriceIs(sol, tok);
    PriceIs(tok, sol);
    AccumulateIs(o.cumSolPerTok, PriceQ64(sol, tok).value, now - o.lastCumSlot);
    AccumulateIs(o.cumTokPerSol, PriceQ64(tok, sol).value, now - o.lastCumSlot);
    hide PriceQ64, AccumulatePrice;
  }

  lemma PriceIs(reserveOut: u64, reserveIn: u64)
    requires reserveIn > 0
    ensures PriceQ64(reserveOut, reserveIn) == Some(reserveOut * 0x1_0000_0000_0000_0000 / reserveIn)
  {
  }

  lemma AccumulateIs(cum: u128, price: u128, slots: u64)
    ensures AccumulatePrice(cum, price, slots) == (cum + price * slots) % TWO_128
  {
    ModAdd(cum, price * slots);
    assert cum % TWO_128 == cum;
  }

  /** A trusted record writes a snapshot if and only if the newest one is at least 500 slots old.
      It then takes the entry at obs_head, which moves round the 16 entries; the others stay. */
  lemma SnapshotIff(o: OracleState, sol: u64, tok: u64, now: u64)
    requires o.WellFormed() && now > o.lastCumSlot && sol >= 5_000_000_000 && tok > 0
    ensures |o.observations| == 16 && o.obsHead < 16 && Record(o, sol, tok, now).Some?
    ensures var r := Record(o, sol, tok, now).value;
            var newest := o.observations[(o.obsHead + 15) % 16].slot;
            && (now >= newest + 500 ==>
                  && r.observations == o.observations[o.obsHead := Observation(now, r.cumSolPerTok, r.cumTokPerSol)]
                  && r.obsHead == (o.obsHead + 1) % 16)
            && (now < newest + 500 ==> r.observations == o.observations && r.obsHead == o.obsHead)
  {
    HeadsAdvanced(o, sol, tok, now);
    assert (o.obsHead + 15) % 16 == if o.obsHead == 0 then 15 else o.obsHead - 1;
    hide AdvanceHeads;
  }

  // ----- one read -----

  /** Entry i is in use and no later than `target`, every such entry after it is no newer, and every
      such entry before it is older. */
  ghost predicate FirstNewest(ring: seq<Observation>, i: int, target: int) {
    && 0 <= i < |ring| && 0 < ring[i].slot <= target
    && (forall j :: 0 <= j < i && 0 < ring[j].slot <= target ==> ring[j].slot < ring[i].slot)
    && (forall j :: i < j < |ring| && 0 < ring[j].slot <= target ==> ring[j].slot <= ring[i].slot)
  }

  lemma {:induction false} StartIsFirstNewest(ring: seq<Observation>, target: u64) returns (i: int)
    requires WindowStart(ring, target).Some?
    ensures FirstNewest(ring, i, target) && WindowStart(ring, target) == Some(ring[i])
    decreases |ring|
  {
    var n := |ring| - 1;
    var init := ring[..n];
    assert forall j :: 0 <= j < n ==> init[j] == ring[j];
    if WindowStart(ring, target) == WindowStart(init, target) {
      i := StartIsFirstNewest(init, target);
    } else {
      i := n;
    }
  }

  lemma FirstNewestUnique(ring: seq<Observation>, i: int, j: int, target: int)
    requires FirstNewest(ring, i, target) && FirstNewest(ring, j, target)
    ensures i == j
  {
  }

  lemma StartIff(ring: seq<Observation>, i: int, target: u64)
    requires 0 <= i < |ring| && FirstNewest(ring, i, target)
    ensures WindowStart(ring, target) == Some(ring[i])
  {
    assert Eligible(ring[i], target);
    var j := StartIsFirstNewest(ring, target);
    FirstNewestUnique(ring, i, j, target);
  }

  /** The mark that a window from this entry to `now` gives. */
  function MarkFrom(o: OracleState, start: Observation, sol: u64, tok: u64, now: u64): int
    requires tok > 0 && start.slot < now
  {
    var gap := if now > o.lastCumSlot then now - o.lastCumSlot else 0;
    (o.cumSolPerTok + sol * 0x1_0000_0000_0000_0000 / tok * gap - start.cumSolPerTok) % TWO_128 / (now - start.slot)
  }

  /** Some entry starts the window, and the mark from it is m. */
  ghost predicate StartsAt(o: OracleState, sol: u64, tok: u64, now: u64, target: int, m: int)
    requires tok > 0
  {
    exists i ::
      FirstNewest(o.observations, i, target)
      && o.observations[i].slot < now && m == MarkFrom(o, o.observations[i], sol, tok, now)
  }

  /** A read answers if and only if there are tokens and an entry in use that is at least `lookback`
      and at least one slot old; it starts from the newest such entry, the leftmost among equals,
      and extends the head to `now` at the current price. */
  lemma ReadIff(o: OracleState, sol: u64, tok: u64, now: u64, lookback: u64, m: u128)
    ensures ReadTwap(o, sol, tok, now, lookback) == Some(m)
            <==> tok > 0 && StartsAt(o, sol, tok, now, if now >= lookback then now - lookback else 0, m)
  {
    var target: u64 := if now >= lookback then now - lookback else 0;
    var ring := o.observations;
    if tok > 0 {
      PriceIs(sol, tok);
      if WindowStart(ring, target).Some? {
        var i := StartIsFirstNewest(ring, target);
        ReadFrom(o, ring[i], sol, tok, now, lookback);
        hide ReadTwap, MarkFrom, WindowStart;
        forall j | FirstNewest(ring, j, target)
          ensures j == i
        {
          FirstNewestUnique(ring, i, j, target);
        }
      } else {
        forall i | FirstNewest(ring, i, target)
          ensures false
        {
          StartIff(ring, i, target);
        }
      }
    }
  }

  lemma ReadFrom(o: OracleState, start: Observation, sol: u64, tok: u64, now: u64, lookback: u64)
    requires tok > 0
    requires WindowStart(o.observations, if now >= lookback then now - lookback else 0) == Some(start)
    ensures ReadTwap(o, sol, tok, now, lookback) ==
              if start.slot < now then Some(MarkFrom(o, start, sol, tok, now)) else None
  {
    hide WindowStart, PriceQ64, AccumulatePrice, WrappingSub;
    PriceIs(sol, tok);
    var gap: u64 := if now > o.lastCumSlot then now - o.lastCumSlot else 0;
    WindowIs(o.cumSolPerTok, PriceQ64(sol, tok).value, gap, start.cumSolPerTok);
  }

  lemma WindowIs(cum: u128, price: u128, gap: u64, start: u128)
    ensures WrappingSub(AccumulatePrice(cum, price, gap), start) == (cum + price * gap - start) % TWO_128
  {
    AccumulateIs(cum, price, gap);
    hide AccumulatePrice;
    ModSubLeft(cum + price * gap, start);
  }

  lemma ModSubLeft(a: int, b: int)
    ensures (a % TWO_128 - b) % TWO_128 == (a - b) % TWO_128
  {
    ModSub(a % TWO_128, b);
    ModSub(a, b);
  }

  // ----- the account after any run from creation -----

  lemma UsedEntryIsSnapshot(o: OracleState, log: Log, i: nat) returns (j: nat)
    requires Refines(o, log) && i < 16 && o.observations[i].slot > 0
    ensures Retained(|log.snaps|, j) && Place(j) == i && o.observations[i].slot == log.snaps[j].slot
  {
    assert |Images(log)| == |log.snaps|;
    j := PlaceInverse(|log.snaps|, i);
    hide Place, Integral;
    RetainedIsInRing(o, log, j);
  }

  /** Any two entries in use are at least 500 slots apart, and none was written before slot 500. */
  lemma EntriesApart(birth: u64, calls: seq<Call>, i: nat, j: nat)
    requires i < 16 && j < 16 && i != j
    ensures |RunOracle(InitOracle(birth), calls).observations| == 16
    ensures var ring := RunOracle(InitOracle(birth), calls).observations;
            && (ring[i].slot > 0 ==> ring[i].slot >= 500)
            && (0 < ring[i].slot <= ring[j].slot ==> ring[i].slot + 500 <= ring[j].slot)
  {
    InitRefines(birth);
    RunRefines(InitOracle(birth), EmptyLog(birth), calls);
    var o, log := RunOracle(InitOracle(birth), calls), RunLog(EmptyLog(birth), calls);
    hide RunOracle, RunLog, InitOracle;
    assert |o.observations| == 16 && log.WellFormed();
    hide Refines, Place, Log.Tiled;
    if 0 < o.observations[i].slot {
      var k := UsedEntryIsSnapshot(o, log, i);
      StartSlotPositive(log, k);
      if o.observations[i].slot <= o.observations[j].slot {
        var l := UsedEntryIsSnapshot(o, log, j);
        if l < k {
          SlotsIncrease(log, l, k);
        }
      }
    }
  }

  /** Once all 16 entries are in use, every read that looks back 1 to 7500 slots is answered. */
  lemma FullAccountAnswers(birth: u64, calls: seq<Call>, sol: u64, tok: u64, now: u64, lookback: u64)
    requires tok > 0 && 1 <= lookback <= 7500
    requires var ring := RunOracle(InitOracle(birth), calls).observations;
             |ring| == 16 && forall i :: 0 <= i < 16 ==> 0 < ring[i].slot <= now
    ensures ReadTwap(RunOracle(InitOracle(birth), calls), sol, tok, now, lookback).Some?
  {
    InitRefines(birth);
    RunRefines(InitOracle(birth), EmptyLog(birth), calls);
    var o, log := RunOracle(InitOracle(birth), calls), RunLog(EmptyLog(birth), calls);
    hide RunOracle, RunLog, InitOracle;
    AllUsed(o, log);
    hide Refines, ReadTwap;
    var newest := |log.snaps| - 1;
    RetainedIsInRing(o, log, newest);
    FullRingAlwaysAnswers(o, log, sol, tok, now, lookback);
  }

  lemma AllUsed(o: OracleState, log: Log)
    requires Refines(o, log)
    requires forall i :: 0 <= i < 16 ==> 0 < o.observations[i].slot
    ensures |log.snaps| >= 16
  {
    hide Place, Integral, Image;
    assert |Images(log)| == |log.snaps|;
    assert o.observations[15].slot > 0;
  }
}
