/** What a read of the oracle means: the exact time-weighted price of the unbounded log, when
    it is `None`, that it does not depend on how often swaps recorded, and when it is a true
    average of the prices in the window. */
module OracleReads {
  import opened Wrappers
  import opened Numbers
  import opened PoolMath
  import opened Oracle
  import opened OracleLog

  /** The newest snapshot, of all ever taken, that is at or before `target`. */
  function LogStart(snaps: seq<Snap>, target: u64): (k: Option<nat>)
    ensures k.None? ==> forall j :: 0 <= j < |snaps| ==> snaps[j].slot > target
    ensures k.Some? ==>
              && k.value < |snaps| && snaps[k.value].slot <= target
              && forall j :: k.value < j < |snaps| ==> snaps[j].slot > target
  {
    if snaps == [] then None
    else if snaps[|snaps| - 1].slot <= target then Some(|snaps| - 1)
    else
      var k := LogStart(snaps[..|snaps| - 1], target);
      assert forall j :: 0 <= j < |snaps| - 1 ==> snaps[j] == snaps[..|snaps| - 1][j];
      k
  }

  /** The unbounded sum of price * slots from snapshot k to `now`, the current price included. */
  ghost function WindowSum(log: Log, k: nat, priceNow: nat, now: u64): int
    requires log.WellFormed() && k < |log.snaps|
  {
    Integral(log.history, SolPerTok) - Integral(log.history[..log.snaps[k].mark], SolPerTok)
    + priceNow * SaturatingSub(now, log.Last())
  }

  // ----- the scan finds the log's start, or the start was evicted -----

  /** The j with Place(j) == i among the last 16 of n. */
  lemma PlaceInverse(n: nat, i: nat) returns (j: nat)
    requires i < TWAP_RING_SIZE && i < n
    ensures Retained(n, j) && Place(j) == i
  {
    var k := (n - 1 - i) / TWAP_RING_SIZE;
    j := i + TWAP_RING_SIZE * k;
    PlaceIsModulo(j);
    hide Place;
    RoundsOf16(i, k);
    LastRound(n - 1 - i);
  }

  lemma RoundsOf16(i: nat, k: nat)
    requires i < 16
    ensures (i + 16 * k) % 16 == i
  {
  }

  lemma LastRound(d: nat)
    ensures 16 * (d / 16) <= d < 16 * (d / 16) + 16
  {
  }

  /** Every eligible ring entry is the image of a retained snapshot that is no newer than the
      log's own start. */
  lemma RingEntryIsSnapshot(o: OracleState, log: Log, target: u64, i: nat) returns (j: nat)
    requires Refines(o, log) && i < TWAP_RING_SIZE && Eligible(o.observations[i], target)
    ensures Retained(|log.snaps|, j) && o.observations[i] == Image(log, log.snaps[j])
    ensures LogStart(log.snaps, target).Some? && j <= LogStart(log.snaps, target).value
  {
    hide Integral, Place;
    assert i < |log.snaps|;
    j := PlaceInverse(|log.snaps|, i);
    assert Images(log)[j] == Image(log, log.snaps[j]);
  }

  lemma SlotsIncrease(log: Log, i: nat, j: nat)
    requires log.WellFormed() && i < j < |log.snaps|
    ensures log.snaps[i].slot < log.snaps[j].slot
    ensures log.snaps[i].slot > 0
  {
    if i > 0 {
      assert log.snaps[0].slot + MIN_OBS_SPACING_SLOTS * (i - 0) <= log.snaps[i].slot;
    }
  }

  lemma StartSlotPositive(log: Log, k: nat)
    requires log.WellFormed() && k < |log.snaps|
    ensures log.snaps[k].slot >= MIN_OBS_SPACING_SLOTS
  {
    if k > 0 {
      assert log.snaps[0].slot + MIN_OBS_SPACING_SLOTS * (k - 0) <= log.snaps[k].slot;
    }
  }

  /** The bounded ring answers as the full log does, except that an evicted start is `None`. */
  lemma WindowStartRefines(o: OracleState, log: Log, target: u64)
    requires Refines(o, log)
    ensures LogStart(log.snaps, target).None? ==> WindowStart(o.observations, target).None?
    ensures LogStart(log.snaps, target).Some? ==>
              var k := LogStart(log.snaps, target).value;
              WindowStart(o.observations, target) ==
                if Retained(|log.snaps|, k) then Some(Image(log, log.snaps[k])) else None
  {
    hide Integral, Place;
    var s := WindowStart(o.observations, target);
    var start := LogStart(log.snaps, target);
    if s.Some? {
      var i :| 0 <= i < TWAP_RING_SIZE && o.observations[i] == s.value;
      var j := RingEntryIsSnapshot(o, log, target, i);
      var k := start.value;
      assert Retained(|log.snaps|, k);
      if j < k {
        SlotsIncrease(log, j, k);
        RetainedIsInRing(o, log, k);
      }
    } else if start.Some? && Retained(|log.snaps|, start.value) {
      StartSlotPositive(log, start.value);
      RetainedIsInRing(o, log, start.value);
    }
  }

  lemma RetainedIsInRing(o: OracleState, log: Log, k: nat)
    requires Refines(o, log) && Retained(|log.snaps|, k)
    ensures o.observations[Place(k)] == Image(log, log.snaps[k])
    ensures 0 <= Place(k) < |o.observations|
  {
    hide Integral, Place;
    assert Images(log)[k] == Image(log, log.snaps[k]);
  }

  // ----- a read is the exact window average, mod nothing -----

  /** The wrapping arithmetic of a read recovers the window sum mod 2^128. */
  lemma WrappingWindow(head: nat, price: nat, gap: nat, start: nat)
    ensures ((head % TWO_128 + (price * gap) % TWO_128) % TWO_128 - start % TWO_128) % TWO_128
         == (head - start + price * gap) % TWO_128
  {
    ModAdd(head, price * gap);
    ModSub(head + price * gap, start);
  }

  /** A window sum, reduced to 128 bits, over the elapsed slots. */
  function WrappedMark(sum: int, slots: int): int
    requires slots > 0
  {
    sum % TWO_128 / slots
  }

  /** The read over the full log: the window sum mod 2^128 over the elapsed slots, from the log's
      own start while that is among the last 16 snapshots, and nothing otherwise. */
  ghost function LogRead(log: Log, priceNow: nat, now: u64, lookback: u64): Option<int>
    requires log.WellFormed()
  {
    var start := LogStart(log.snaps, SaturatingSub(now, lookback));
    if start.None? || !Retained(|log.snaps|, start.value) || now <= log.snaps[start.value].slot then None
    else Some(WrappedMark(WindowSum(log, start.value, priceNow, now), now - log.snaps[start.value].slot))
  }

  /** On any recorded run a read of the account is the read of the log; without tokens in the
      pool there is no price and no mark. */
  lemma ReadRefines(o: OracleState, log: Log, sol: u64, tok: u64, now: u64, lookback: u64)
    requires Refines(o, log)
    ensures PriceQ64(sol, tok).Some? <==> tok > 0
    ensures ReadTwap(o, sol, tok, now, lookback) ==
              if tok == 0 then None else LogRead(log, PriceQ64(sol, tok).value, now, lookback)
  {
    hide RingHolds, Images, WindowStart, LogStart, Integral, PriceQ64, Retained;
    var target := SaturatingSub(now, lookback);
    WindowStartRefines(o, log, target);
    PriceQ64Floor(sol, tok);
    var start := LogStart(log.snaps, target);
    if start.Some? && Retained(|log.snaps|, start.value) && tok > 0 {
      var snap := log.snaps[start.value];
      var head, before := Integral(log.history, SolPerTok), Integral(log.history[..snap.mark], SolPerTok);
      var price, gap := PriceQ64(sol, tok).value, SaturatingSub(now, log.Last());
      assert o.cumSolPerTok == head % TWO_128 && Image(log, snap).cumSolPerTok == before % TWO_128;
      WrappedRead(head, price, gap, before, SaturatingSub(now, snap.slot));
      hide AccumulatePrice, WrappingSub, CheckedDiv, WrappedMark;
    }
  }

  /** The arithmetic of one read. */
  lemma WrappedRead(head: nat, price: u128, gap: u64, before: nat, slots: u64)
    ensures CheckedDiv(WrappingSub(AccumulatePrice(head % TWO_128, price, gap), before % TWO_128), slots)
         == if slots == 0 then None else Some(WrappedMark(head - before + price * gap, slots))
  {
    WrappingWindow(head, price, gap, before);
    var window := WrappingSub(AccumulatePrice(head % TWO_128, price, gap), before % TWO_128);
    assert window == (head - before + price * gap) % TWO_128;
    hide WrappingSub, AccumulatePrice;
  }

  lemma WindowSumNonNegative(log: Log, k: nat, priceNow: nat, now: u64)
    requires log.WellFormed() && k < |log.snaps|
    ensures WindowSum(log, k, priceNow, now) >= 0
  {
    IntegralGrows(log.history, log.snaps[k].mark, SolPerTok);
  }

  /** The read is the floor of the true window sum over the elapsed slots exactly when that
      sum is below 2^128: past it the mark is too low, by more than its own rounding. */
  lemma ReadExactIffNoWrap(o: OracleState, log: Log, sol: u64, tok: u64, now: u64, lookback: u64, k: nat)
    requires Refines(o, log) && tok > 0
    requires LogStart(log.snaps, SaturatingSub(now, lookback)) == Some(k)
    requires Retained(|log.snaps|, k) && now > log.snaps[k].slot
    ensures WindowSum(log, k, PriceQ64(sol, tok).value, now) >= 0
    ensures ReadTwap(o, sol, tok, now, lookback)
              == Some(WindowSum(log, k, PriceQ64(sol, tok).value, now) / (now - log.snaps[k].slot))
            <==> WindowSum(log, k, PriceQ64(sol, tok).value, now) < TWO_128
  {
    assert log.WellFormed();
    ReadRefines(o, log, sol, tok, now, lookback);
    var price := PriceQ64(sol, tok).value;
    assert LogRead(log, price, now, lookback)
        == Some(WrappedMark(WindowSum(log, k, price, now), now - log.snaps[k].slot)) by {
      hide WrappedMark, WindowSum, Log.WellFormed, Refines, LogStart;
    }
    hide *;
    WindowSumNonNegative(log, k, price, now);
    QuotientExactIff(WindowSum(log, k, price, now), now - log.snaps[k].slot);
  }

  lemma QuotientExactIff(sum: nat, dt: nat)
    requires 0 < dt < TWO_64
    ensures WrappedMark(sum, dt) == sum / dt <==> sum < TWO_128
  {
    if sum >= TWO_128 {
      var q := sum % TWO_128 / dt;
      FloorDiv(sum % TWO_128, dt);
      assert (q + 1) * dt == q * dt + dt;
      DivAtLeast(sum, dt, q + 1);
    }
  }

  lemma {:induction false} IntegralGrows(history: seq<Interval>, m: nat, d: Direction)
    requires Ordered(history) && m <= |history|
    ensures Integral(history[..m], d) <= Integral(history, d)
    decreases |history|
  {
    if m < |history| {
      assert history[..|history| - 1][..m] == history[..m];
      IntegralGrows(history[..|history| - 1], m, d);
    } else {
      assert history[..m] == history;
    }
  }

  // ----- no read is refused once the ring is full -----

  /** With 16 snapshots taken, every lookback up to 15 spacings is answered. */
  lemma FullRingAlwaysAnswers(o: OracleState, log: Log, sol: u64, tok: u64, now: u64, lookback: u64)
    requires Refines(o, log) && tok > 0
    requires |log.snaps| >= 16 && now >= NewestSlot(log)
    requires 1 <= lookback <= 7500
    ensures ReadTwap(o, sol, tok, now, lookback).Some?
  {
    hide Refines, Integral, WindowSum;
    ReadRefines(o, log, sol, tok, now, lookback);
    var n := |log.snaps|;
    var oldest := n - TWAP_RING_SIZE;
    OldestIsOldEnough(o, log, oldest);
    assert log.snaps[oldest].slot <= now - lookback;
  }

  lemma OldestIsOldEnough(o: OracleState, log: Log, oldest: nat)
    requires Refines(o, log) && oldest + TWAP_RING_SIZE == |log.snaps|
    ensures log.snaps[oldest].slot + (TWAP_RING_SIZE - 1) * MIN_OBS_SPACING_SLOTS <= NewestSlot(log)
  {
    hide RingHolds, HeadsHold;
    assert log.snaps[oldest].slot + MIN_OBS_SPACING_SLOTS * (|log.snaps| - 1 - oldest)
        <= log.snaps[|log.snaps| - 1].slot;
  }
}
