/** Laws of the mark itself: it is an average of the prices in its window, and it does not
    depend on how often swaps happened to record. */
module OracleLaws {
  import opened Wrappers
  import opened Numbers
  import opened PoolMath
  import opened Oracle
  import opened OracleLog
  import opened OracleReads

  // ----- the mark is an average -----

  /** Slots of the intervals m..n that were dust and so added nothing to the integral. */
  function SkippedSlots(history: seq<Interval>, m: nat, n: nat): nat
    requires Ordered(history) && m <= n <= |history|
    decreases n
  {
    if m == n then 0
    else SkippedSlots(history, m, n - 1)
         + if history[n - 1].Dust() then history[n - 1].to - history[n - 1].from else 0
  }

  /** Every price recorded after the first m intervals lies between lo and hi. */
  ghost predicate PricesWithin(history: seq<Interval>, m: nat, lo: nat, hi: nat) {
    forall i :: m <= i < |history| && !history[i].Dust() ==> lo <= PriceIn(history[i], SolPerTok) <= hi
  }

  /** A sum that lies between lo and hi times some slots still does after `d` more slots at a
      price between the two. */
  lemma BoundsExtend(lo: nat, hi: nat, slots: int, sum: int, price: nat, d: nat)
    requires lo * slots <= sum <= hi * slots && lo <= price <= hi
    ensures lo * (slots + d) <= sum + price * d <= hi * (slots + d)
  {
    MulMono(lo, price, d);
    MulMono(price, hi, d);
  }

  /** What the intervals m..n added to the integral, in terms of their trusted slots. */
  lemma {:induction false} IntegralWithin(log: Log, m: nat, n: nat, lo: nat, hi: nat) returns (trusted: nat)
    requires log.WellFormed() && 0 < m <= n <= |log.history|
    requires PricesWithin(log.history, m, lo, hi)
    ensures trusted == log.history[n - 1].to - log.history[m - 1].to - SkippedSlots(log.history, m, n)
    ensures lo * trusted
         <= Integral(log.history[..n], SolPerTok) - Integral(log.history[..m], SolPerTok)
         <= hi * trusted
    decreases n
  {
    var h := log.history;
    if m == n {
      trusted := 0;
    } else {
      var last := h[n - 1];
      assert last.from == h[n - 2].to && last.from < last.to;
      assert last.Dust() || lo <= PriceIn(last, SolPerTok) <= hi;
      var skips := if last.Dust() then last.to - last.from else 0;
      assert SkippedSlots(h, m, n) == SkippedSlots(h, m, n - 1) + skips;
      IntegralNext(h, n);
      hide *;
      var before := IntegralWithin(log, m, n - 1, lo, hi);
      trusted := WeightWithin(last, lo, hi, before, Integral(h[..n - 1], SolPerTok) - Integral(h[..m], SolPerTok));
    }
  }

  lemma IntegralNext(h: seq<Interval>, n: nat)
    requires Ordered(h) && 0 < n <= |h|
    ensures Integral(h[..n], SolPerTok) == Integral(h[..n - 1], SolPerTok) + Weight(h[n - 1], SolPerTok)
  {
    assert h[..n][..n - 1] == h[..n - 1];
  }

  lemma WeightWithin(i: Interval, lo: nat, hi: nat, slots: nat, sum: int) returns (trusted: nat)
    requires lo * slots <= sum <= hi * slots && i.from < i.to
    requires i.Dust() || lo <= PriceIn(i, SolPerTok) <= hi
    ensures trusted == slots + i.to - i.from - if i.Dust() then i.to - i.from else 0
    ensures lo * trusted <= sum + Weight(i, SolPerTok) <= hi * trusted
  {
    hide PriceIn;
    if i.Dust() {
      trusted := slots;
    } else {
      trusted := slots + (i.to - i.from);
      BoundsExtend(lo, hi, slots, sum, PriceIn(i, SolPerTok), i.to - i.from);
    }
  }

  /** The window sum, with the current price held since the last record. */
  lemma WindowSumWithin(log: Log, k: nat, price: nat, now: u64, lo: nat, hi: nat) returns (trusted: nat)
    requires log.WellFormed() && k < |log.snaps| && now >= log.Last()
    requires PricesWithin(log.history, log.snaps[k].mark, lo, hi) && lo <= price <= hi
    ensures trusted == now - log.snaps[k].slot
                       - SkippedSlots(log.history, log.snaps[k].mark, |log.history|)
    ensures lo * trusted <= WindowSum(log, k, price, now) <= hi * trusted
  {
    var n, m := |log.history|, log.snaps[k].mark;
    assert log.history[..n] == log.history;
    assert log.snaps[k].slot == log.history[m - 1].to && log.Last() == log.history[n - 1].to;
    hide Integral, SkippedSlots, PricesWithin, Log.WellFormed;
    var before := IntegralWithin(log, m, n, lo, hi);
    trusted := before + (now - log.Last());
    BoundsExtend(lo, hi, before,
                 Integral(log.history, SolPerTok) - Integral(log.history[..m], SolPerTok),
                 price, now - log.Last());
  }

  /** A read that the ring can answer. */
  ghost predicate Answered(o: OracleState, log: Log, tok: u64, now: u64, lookback: u64, k: nat) {
    && Refines(o, log) && tok > 0 && now >= log.Last()
    && LogStart(log.snaps, SaturatingSub(now, lookback)) == Some(k)
    && Retained(|log.snaps|, k) && now > log.snaps[k].slot
  }

  /** The mark never exceeds the highest price of its window, the current one included, and
      is never below the lowest unless part of the window was skipped as dust. */
  lemma MarkIsAverage(o: OracleState, log: Log, sol: u64, tok: u64, now: u64, lookback: u64, k: nat,
                      lo: nat, hi: nat)
    requires Answered(o, log, tok, now, lookback, k)
    requires PricesWithin(log.history, log.snaps[k].mark, lo, hi)
    requires PriceQ64(sol, tok).Some? && lo <= PriceQ64(sol, tok).value <= hi
    requires hi * (now - log.snaps[k].slot) < TWO_128
    ensures ReadTwap(o, sol, tok, now, lookback).Some?
    ensures ReadTwap(o, sol, tok, now, lookback).value <= hi
    ensures SkippedSlots(log.history, log.snaps[k].mark, |log.history|) == 0 ==>
              lo <= ReadTwap(o, sol, tok, now, lookback).value
  {
    var price := PriceQ64(sol, tok).value;
    AnsweredParts(o, log, tok, now, lookback, k);
    assert log.WellFormed();
    hide *;
    var trusted := WindowSumWithin(log, k, price, now, lo, hi);
    var sum, dt := WindowSum(log, k, price, now), now - log.snaps[k].slot;
    ReadExactIffNoWrap(o, log, sol, tok, now, lookback, k);
    ExactReadWithin(ReadTwap(o, sol, tok, now, lookback), sum, dt, trusted,
                    SkippedSlots(log.history, log.snaps[k].mark, |log.history|), lo, hi);
  }

  lemma ExactReadWithin(read: Option<u128>, sum: nat, dt: nat, trusted: nat, skipped: nat, lo: nat, hi: nat)
    requires dt > 0
    requires read == Some(sum / dt) <==> sum < TWO_128
    requires trusted == dt - skipped && lo * trusted <= sum <= hi * trusted
    requires hi * dt < TWO_128
    ensures read.Some? && read.value <= hi
    ensures skipped == 0 ==> lo <= read.value
  {
    MulMono(trusted, dt, hi);
    DivBelow(sum, dt, hi + 1);
    if skipped == 0 {
      DivAtLeast(sum, dt, lo);
    }
  }

  lemma AnsweredParts(o: OracleState, log: Log, tok: u64, now: u64, lookback: u64, k: nat)
    requires Answered(o, log, tok, now, lookback, k)
    ensures Refines(o, log) && tok > 0 && now >= log.Last()
    ensures LogStart(log.snaps, SaturatingSub(now, lookback)) == Some(k)
    ensures Retained(|log.snaps|, k) && now > log.snaps[k].slot
  {
  }

  /** The code skips a dust interval's price but still counts its slots in the divisor. So when
      one price held all through the window, the mark is that price exactly when the window
      has no dust slot; with one, a non-zero price is always under-read. */
  lemma ConstantPriceIffNoDust(o: OracleState, log: Log, sol: u64, tok: u64, now: u64, lookback: u64, k: nat,
                               price: nat)
    requires Answered(o, log, tok, now, lookback, k)
    requires PricesWithin(log.history, log.snaps[k].mark, price, price)
    requires PriceQ64(sol, tok) == Some(price) && price > 0
    requires price * (now - log.snaps[k].slot) < TWO_128
    ensures ReadTwap(o, sol, tok, now, lookback).Some?
    ensures ReadTwap(o, sol, tok, now, lookback).value == price
            <==> SkippedSlots(log.history, log.snaps[k].mark, |log.history|) == 0
  {
    AnsweredParts(o, log, tok, now, lookback, k);
    assert log.WellFormed();
    hide *;
    var trusted := WindowSumWithin(log, k, price, now, price, price);
    ReadExactIffNoWrap(o, log, sol, tok, now, lookback, k);
    ConstantQuotient(ReadTwap(o, sol, tok, now, lookback), WindowSum(log, k, price, now),
                     now - log.snaps[k].slot, trusted,
                     SkippedSlots(log.history, log.snaps[k].mark, |log.history|), price);
  }

  lemma ConstantQuotient(read: Option<u128>, sum: nat, dt: nat, trusted: nat, skipped: nat, price: nat)
    requires dt > 0 && price > 0
    requires read == Some(sum / dt) <==> sum < TWO_128
    requires trusted == dt - skipped && sum == price * trusted
    requires price * dt < TWO_128
    ensures read.Some? && (read.value == price <==> skipped == 0)
  {
    MulMono(trusted, dt, price);
    if skipped == 0 {
      DivIs(sum, dt, price);
    } else {
      MulStrict(trusted, dt, price);
      DivBelow(sum, dt, price);
    }
  }

  // ----- independence of swap frequency -----

  /** From o to o' both heads moved by the price at these reserves times the slots between. */
  ghost predicate HeldPrice(o: OracleState, o': OracleState, sol: u64, tok: u64) {
    && sol > 0 && tok > 0
    && o.lastCumSlot <= o'.lastCumSlot
    && o'.cumSolPerTok == (o.cumSolPerTok + PriceQ64(sol, tok).value * (o'.lastCumSlot - o.lastCumSlot)) % TWO_128
    && o'.cumTokPerSol == (o.cumTokPerSol + PriceQ64(tok, sol).value * (o'.lastCumSlot - o.lastCumSlot)) % TWO_128
  }

  lemma WrapTwice(c: nat, p: nat, a: nat, b: nat)
    ensures ((c + p * a) % TWO_128 + p * b) % TWO_128 == (c + p * (a + b)) % TWO_128
  {
    assert p * (a + b) == p * a + p * b;
    ModAddRight(c + p * a, p * b);
  }

  lemma ModAddRight(a: int, b: int)
    ensures (a % TWO_128 + b) % TWO_128 == (a + b) % TWO_128
    ensures (b + a % TWO_128) % TWO_128 == (a + b) % TWO_128
  {
  }

  lemma HeldPriceTransitive(a: OracleState, b: OracleState, c: OracleState, sol: u64, tok: u64)
    requires HeldPrice(a, b, sol, tok) && HeldPrice(b, c, sol, tok)
    ensures HeldPrice(a, c, sol, tok)
  {
    WrapTwice(a.cumSolPerTok, PriceQ64(sol, tok).value,
              b.lastCumSlot - a.lastCumSlot, c.lastCumSlot - b.lastCumSlot);
    WrapTwice(a.cumTokPerSol, PriceQ64(tok, sol).value,
              b.lastCumSlot - a.lastCumSlot, c.lastCumSlot - b.lastCumSlot);
  }

  lemma AdvanceHoldsPrice(o: OracleState, sol: u64, tok: u64, now: u64)
    requires sol > 0 && tok > 0 && now > o.lastCumSlot
    ensures AdvanceHeads(o, sol, tok, now).Some?
    ensures HeldPrice(o, AdvanceHeads(o, sol, tok, now).value, sol, tok)
    ensures AdvanceHeads(o, sol, tok, now).value.lastCumSlot == now
  {
    PriceQ64Floor(sol, tok);
    PriceQ64Floor(tok, sol);
    var p, q := PriceQ64(sol, tok).value, PriceQ64(tok, sol).value;
    hide PriceQ64;
    ModAddRight(p * (now - o.lastCumSlot), o.cumSolPerTok);
    ModAddRight(q * (now - o.lastCumSlot), o.cumTokPerSol);
  }

  lemma SameHeads(o: OracleState, a: OracleState, b: OracleState, sol: u64, tok: u64)
    requires HeldPrice(o, a, sol, tok) && a.lastCumSlot == b.lastCumSlot
    requires a.cumSolPerTok == b.cumSolPerTok && a.cumTokPerSol == b.cumTokPerSol
    ensures HeldPrice(o, b, sol, tok)
  {
  }

  lemma RecordHoldsPrice(o: OracleState, sol: u64, tok: u64, now: u64)
    requires o.WellFormed() && sol >= MIN_SPOT_RESERVE && tok > 0
    ensures Record(o, sol, tok, now).Some?
    ensures HeldPrice(o, Record(o, sol, tok, now).value, sol, tok)
    ensures Record(o, sol, tok, now).value.lastCumSlot == Max(o.lastCumSlot, now)
  {
    if now > o.lastCumSlot {
      hide AdvanceHeads, HeldPrice, PriceQ64;
      AdvanceHoldsPrice(o, sol, tok, now);
      var heads, r := AdvanceHeads(o, sol, tok, now).value, Record(o, sol, tok, now).value;
      assert r.cumSolPerTok == heads.cumSolPerTok && r.cumTokPerSol == heads.cumTokPerSol;
      assert r.lastCumSlot == heads.lastCumSlot;
      hide *;
      SameHeads(o, heads, r, sol, tok);
    } else {
      HeldPriceReflexive(o, sol, tok);
    }
  }

  lemma {:induction false} RunHoldsPrice(o: OracleState, calls: seq<Call>, sol: u64, tok: u64, now: u64)
    requires o.WellFormed() && sol >= MIN_SPOT_RESERVE && tok > 0
    requires o.lastCumSlot <= now
    requires forall c :: c in calls ==> c.sol == sol && c.tok == tok && c.now <= now
    ensures RunOracle(o, calls).WellFormed()
    ensures HeldPrice(o, RunOracle(o, calls), sol, tok)
    ensures RunOracle(o, calls).lastCumSlot <= now
    decreases |calls|
  {
    hide Record, HeldPrice;
    if calls == [] {
      HeldPriceReflexive(o, sol, tok);
    } else {
      assert calls[0] in calls;
      RecordHoldsPrice(o, sol, tok, calls[0].now);
      var next := Record(o, sol, tok, calls[0].now).value;
      RunHoldsPrice(next, calls[1..], sol, tok, now);
      HeldPriceTransitive(o, next, RunOracle(next, calls[1..]), sol, tok);
    }
  }

  lemma HeldPriceReflexive(o: OracleState, sol: u64, tok: u64)
    requires sol > 0 && tok > 0
    ensures HeldPrice(o, o, sol, tok)
  {
    PriceQ64Floor(sol, tok);
    PriceQ64Floor(tok, sol);
  }

  /** While the reserves stand still above the dust floor, any number of records at any slots
      up to `now` leave the heads where one record at `now` leaves them. */
  lemma FrequencyIndependent(o: OracleState, calls: seq<Call>, sol: u64, tok: u64, now: u64)
    requires o.WellFormed() && sol >= MIN_SPOT_RESERVE && tok > 0
    requires o.lastCumSlot <= now
    requires forall c :: c in calls ==> c.sol == sol && c.tok == tok && c.now <= now
    ensures var often, once := Record(RunOracle(o, calls), sol, tok, now), Record(o, sol, tok, now);
            && often.Some? && once.Some?
            && often.value.cumSolPerTok == once.value.cumSolPerTok
            && often.value.cumTokPerSol == once.value.cumTokPerSol
            && often.value.lastCumSlot == once.value.lastCumSlot == now
  {
    hide Record, RunOracle, HeldPrice, PriceQ64;
    RunHoldsPrice(o, calls, sol, tok, now);
    var run := RunOracle(o, calls);
    RecordHoldsPrice(run, sol, tok, now);
    RecordHoldsPrice(o, sol, tok, now);
    HeldPriceTransitive(o, run, Record(run, sol, tok, now).value, sol, tok);
    HeldPriceUnique(o, Record(run, sol, tok, now).value, Record(o, sol, tok, now).value, sol, tok);
  }

  lemma HeldPriceUnique(o: OracleState, a: OracleState, b: OracleState, sol: u64, tok: u64)
    requires HeldPrice(o, a, sol, tok) && HeldPrice(o, b, sol, tok) && a.lastCumSlot == b.lastCumSlot
    ensures a.cumSolPerTok == b.cumSolPerTok && a.cumTokPerSol == b.cumTokPerSol
  {
  }

  // ----- a lazy read is a recorded read -----

  /** Recording at `now` would overwrite the very snapshot that a read now starts from. */
  ghost predicate EvictsStart(log: Log, now: u64, lookback: u64) {
    && now > log.Last()
    && SaturatingSub(now, NewestSlot(log)) >= MIN_OBS_SPACING_SLOTS
    && |log.snaps| >= TWAP_RING_SIZE
    && LogStart(log.snaps, SaturatingSub(now, lookback)) == Some(|log.snaps| - TWAP_RING_SIZE)
  }

  lemma LogStartIgnoresNewer(snaps: seq<Snap>, s: Snap, target: u64)
    requires s.slot > target
    ensures LogStart(snaps + [s], target) == LogStart(snaps, target)
  {
    assert (snaps + [s])[..|snaps|] == snaps;
  }

  /** The interval a record closes weighs what the lazy extension of the head weighed. */
  lemma RecordKeepsSum(log: Log, log': Log, i: Interval, k: nat)
    requires log.WellFormed() && log'.WellFormed() && k < |log.snaps|
    requires log'.history == log.history + [i]
    requires k < |log'.snaps| && log'.snaps[k] == log.snaps[k]
    requires i.from == log.Last() && !i.Dust()
    ensures WindowSum(log', k, PriceIn(i, SolPerTok), i.to) == WindowSum(log, k, PriceIn(i, SolPerTok), i.to)
  {
    hide PriceIn;
    assert log'.history[..|log.history|] == log.history;
    assert log'.history[..log.snaps[k].mark] == log.history[..log.snaps[k].mark];
  }

  /** Recording first does not change where the window starts. */
  lemma RecordKeepsStart(log: Log, sol: u64, tok: u64, now: u64, lookback: u64) returns (log': Log)
    requires log.WellFormed() && sol >= MIN_SPOT_RESERVE && tok > 0
    requires now > log.Last() && lookback >= 1
    ensures RecordLog(log, sol, tok, now) == Some(log') && log'.WellFormed()
    ensures log'.history == log.history + [Interval(log.Last(), now, sol, tok)]
    ensures log.snaps <= log'.snaps
    ensures |log'.snaps| == |log.snaps| + if SaturatingSub(now, NewestSlot(log)) >= MIN_OBS_SPACING_SLOTS then 1 else 0
    ensures LogStart(log'.snaps, SaturatingSub(now, lookback)) == LogStart(log.snaps, SaturatingSub(now, lookback))
  {
    var i := Interval(log.Last(), now, sol, tok);
    var grown := GrowTiled(log, i);
    hide PriceQ64, PriceIn, Integral, LogStart, Log.Tiled, Log.Spaced, Ordered;
    if SaturatingSub(now, NewestSlot(log)) >= MIN_OBS_SPACING_SLOTS {
      log' := SnapshotKeepsLog(grown, Snap(now, |grown.history|));
      LogStartIgnoresNewer(log.snaps, Snap(now, |grown.history|), SaturatingSub(now, lookback));
    } else {
      log' := grown;
    }
  }

  /** The log's read after the record, against its read before. */
  lemma RecordedLogRead(log: Log, log': Log, i: Interval, lookback: u64)
    requires log.WellFormed() && log'.WellFormed() && lookback >= 1
    requires i.from == log.Last() && i.from < i.to && !i.Dust()
    requires log'.history == log.history + [i] && log.snaps <= log'.snaps
    requires |log'.snaps| == |log.snaps| + if SaturatingSub(i.to, NewestSlot(log)) >= MIN_OBS_SPACING_SLOTS then 1 else 0
    requires LogStart(log'.snaps, SaturatingSub(i.to, lookback)) == LogStart(log.snaps, SaturatingSub(i.to, lookback))
    ensures LogRead(log', PriceIn(i, SolPerTok), i.to, lookback) == LogRead(log, PriceIn(i, SolPerTok), i.to, lookback)
            <==> !EvictsStart(log, i.to, lookback)
  {
    hide Retained, WrappedMark, WindowSum, PriceIn, Log.WellFormed, LogStart;
    var start := LogStart(log.snaps, SaturatingSub(i.to, lookback));
    if start.Some? {
      assert log'.snaps[start.value] == log.snaps[start.value];
      RecordKeepsSum(log, log', i, start.value);
      RetainedNext(|log.snaps|, start.value);
    }
  }

  /** Reading lazily equals recording first and then reading, for any lookback of at least one
      slot, exactly unless that record evicts the snapshot the window starts from. */
  lemma LazyReadIffNotEvicted(o: OracleState, log: Log, sol: u64, tok: u64, now: u64, lookback: u64)
    requires Refines(o, log) && sol >= MIN_SPOT_RESERVE && tok > 0
    requires now >= log.Last() && lookback >= 1
    ensures Record(o, sol, tok, now).Some?
    ensures ReadTwap(Record(o, sol, tok, now).value, sol, tok, now, lookback)
              == ReadTwap(o, sol, tok, now, lookback)
            <==> !EvictsStart(log, now, lookback)
  {
    if now > log.Last() {
      LazyReadAfter(o, log, sol, tok, now, lookback);
    } else {
      hide ReadTwap;
    }
  }

  lemma LazyReadAfter(o: OracleState, log: Log, sol: u64, tok: u64, now: u64, lookback: u64)
    requires Refines(o, log) && sol >= MIN_SPOT_RESERVE && tok > 0
    requires now > log.Last() && lookback >= 1
    ensures Record(o, sol, tok, now).Some?
    ensures ReadTwap(Record(o, sol, tok, now).value, sol, tok, now, lookback)
              == ReadTwap(o, sol, tok, now, lookback)
            <==> !EvictsStart(log, now, lookback)
  {
    assert log.WellFormed();
    hide *;
    var log' := RecordKeepsStart(log, sol, tok, now, lookback);
    RecordRefines(o, log, sol, tok, now);
    ReadRefines(o, log, sol, tok, now, lookback);
    ReadRefines(Record(o, sol, tok, now).value, log', sol, tok, now, lookback);
    var i := Interval(log.Last(), now, sol, tok);
    RecordedPrice(i);
    RecordedLogRead(log, log', i, lookback);
  }

  lemma RetainedNext(n: nat, k: nat)
    requires k < n
    ensures Retained(n + 1, k) <==> Retained(n, k) && k != n - TWAP_RING_SIZE
    ensures n >= TWAP_RING_SIZE && k == n - TWAP_RING_SIZE ==> Retained(n, k)
    ensures Retained(n, k) && k == n - TWAP_RING_SIZE ==> n >= TWAP_RING_SIZE
  {
  }

  lemma RecordedPrice(i: Interval)
    requires i.tok > 0 && i.sol >= MIN_SPOT_RESERVE
    ensures !i.Dust() && PriceQ64(i.sol, i.tok).Some?
    ensures PriceIn(i, SolPerTok) == PriceQ64(i.sol, i.tok).value
  {
    PriceQ64Floor(i.sol, i.tok);
  }
}
