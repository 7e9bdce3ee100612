/** How long the window of a read really is. The comment on the reader bounds it by the lookback
    plus one spacing; the code gives that bound only from the last record before the target. */
module OracleWindow {
  import opened Wrappers
  import opened Numbers
  import opened Oracle
  import opened OracleLog
  import opened OracleReads

  /** At `slot` the newest snapshot was less than one spacing old, or none was due yet. */
  ghost predicate SnapshotNear(snaps: seq<Snap>, slot: u64) {
    match LogStart(snaps, slot)
    case Some(k) => slot < snaps[k].slot + 500
    case None => slot < 500
  }

  /** Every record above the dust floor left a snapshot near it. */
  ghost predicate Dense(log: Log) {
    forall i :: 0 <= i < |log.history| && !log.history[i].Dust() ==> SnapshotNear(log.snaps, log.history[i].to)
  }

  lemma NewerSnapshotKeepsNear(snaps: seq<Snap>, s: Snap, slot: u64)
    requires SnapshotNear(snaps, slot) && s.slot > slot
    ensures SnapshotNear(snaps + [s], slot)
  {
    assert (snaps + [s])[..|snaps|] == snaps;
  }

  lemma RecordKeepsDense(log: Log, sol: u64, tok: u64, now: u64)
    requires log.WellFormed() && Dense(log) && RecordLog(log, sol, tok, now).Some?
    ensures Dense(RecordLog(log, sol, tok, now).value)
  {
    if now > log.Last() {
      var log' := RecordLog(log, sol, tok, now).value;
      assert log'.history[..|log.history|] == log.history;
      RecordIsNear(log, sol, tok, now);
      assert log'.snaps == log.snaps || log'.snaps == log.snaps + [Snap(now, |log.history| + 1)];
      hide SnapshotNear, RecordLog;
      forall i | 0 <= i < |log.history| && !log.history[i].Dust()
        ensures SnapshotNear(log'.snaps, log.history[i].to)
      {
        EndsByLast(log, i);
        if log'.snaps != log.snaps {
          NewerSnapshotKeepsNear(log.snaps, log'.snaps[|log.snaps|], log.history[i].to);
        }
      }
    }
  }

  lemma RecordIsNear(log: Log, sol: u64, tok: u64, now: u64)
    requires log.WellFormed() && now > log.Last() && RecordLog(log, sol, tok, now).Some?
    ensures var log' := RecordLog(log, sol, tok, now).value;
            && log'.history == log.history + [Interval(log.Last(), now, sol, tok)]
            && (sol >= MIN_SPOT_RESERVE ==> SnapshotNear(log'.snaps, now))
  {
    if log.snaps != [] {
      EndsByLast(log, log.snaps[|log.snaps| - 1].mark - 1);
    }
  }

  lemma EndsByLast(log: Log, i: nat)
    requires log.WellFormed() && i < |log.history|
    ensures log.history[i].to <= log.Last()
    decreases |log.history| - i
  {
    if i + 1 < |log.history| {
      EndsByLast(log, i + 1);
    }
  }

  /** Whatever was called on the account, at whatever slots. */
  lemma {:induction false} RunDense(o: OracleState, log: Log, calls: seq<Call>)
    requires Refines(o, log) && Dense(log)
    ensures Dense(RunLog(log, calls))
    decreases |calls|
  {
    if calls != [] {
      var c := calls[0];
      var l := RecordLog(log, c.sol, c.tok, c.now);
      var r := Record(o, c.sol, c.tok, c.now);
      RecordRefines(o, log, c.sol, c.tok, c.now);
      if l.Some? {
        RecordKeepsDense(log, c.sol, c.tok, c.now);
      }
      hide Refines, Record, RecordLog, Dense;
      RunDense(if r.Some? then r.value else o, if l.Some? then l.value else log, calls[1..]);
    }
  }

  /** A window starts less than one spacing before any trusted record at or before the target. So
      it is shorter than lookback + spacing + (target - that record). */
  lemma WindowBound(log: Log, now: u64, lookback: u64, i: nat)
    requires log.WellFormed() && Dense(log) && i < |log.history| && !log.history[i].Dust()
    requires lookback <= now && log.history[i].to <= now - lookback
    requires 500 <= log.history[i].to
    ensures LogStart(log.snaps, now - lookback).Some?
    ensures var start := log.snaps[LogStart(log.snaps, now - lookback).value].slot;
            now - start < lookback + 500 + (now - lookback - log.history[i].to)
  {
    var near := LogStart(log.snaps, log.history[i].to);
    var k := LogStart(log.snaps, now - lookback);
    assert log.snaps[near.value].slot <= now - lookback;
    if near.value < k.value {
      SlotsIncrease(log, near.value, k.value);
    }
  }

  /** The commented bound, window <= lookback + spacing, holds exactly when a snapshot was taken
      within one spacing before the target. */
  lemma SpacingBoundIff(log: Log, now: u64, lookback: u64, k: nat)
    requires log.WellFormed() && lookback <= now && LogStart(log.snaps, now - lookback) == Some(k)
    ensures now - log.snaps[k].slot <= lookback + 500
            <==> exists j :: 0 <= j < |log.snaps|
                    && now - lookback - 500 <= log.snaps[j].slot <= now - lookback
  {
    forall j | 0 <= j < |log.snaps| && log.snaps[j].slot <= now - lookback
      ensures log.snaps[j].slot <= log.snaps[k].slot
    {
      if j < k {
        SlotsIncrease(log, j, k);
      }
    }
  }

  /** The same for a caller who only has the account: some ring entry lies in that spacing. */
  lemma RingSpacingBoundIff(o: OracleState, log: Log, now: u64, lookback: u64, k: nat)
    requires Refines(o, log) && lookback <= now
    requires LogStart(log.snaps, now - lookback) == Some(k) && Retained(|log.snaps|, k)
    ensures now - log.snaps[k].slot <= lookback + 500
            <==> exists i :: 0 <= i < |o.observations| && Eligible(o.observations[i], now - lookback)
                    && now - lookback <= o.observations[i].slot + 500
  {
    assert log.WellFormed();
    hide Refines, LogStart, WindowStart, Log.WellFormed, Eligible, Retained;
    var target: u64 := now - lookback;
    WindowStartRefines(o, log, target);
    var start := WindowStart(o.observations, target).value;
    assert start.slot == log.snaps[k].slot;
    hide *;
    RingStartNear(o.observations, start, target);
  }

  lemma RingStartNear(ring: seq<Observation>, start: Observation, target: u64)
    requires WindowStart(ring, target) == Some(start)
    ensures target <= start.slot + 500
            <==> exists i :: 0 <= i < |ring| && Eligible(ring[i], target)
                    && target <= ring[i].slot + 500
  {
    hide WindowStart, Eligible;
  }

  /** A pool that traded once, at slot 500, and then stood still: a read ten thousand slots later
      that asks for a thousand averages over all ten thousand. */
  lemma QuietPoolWindow(sol: u64, tok: u64)
    requires sol >= MIN_SPOT_RESERVE && tok > 0
    ensures RecordLog(EmptyLog(0), sol, tok, 500).Some?
    ensures var log := RecordLog(EmptyLog(0), sol, tok, 500).value;
            && LogStart(log.snaps, 10_500 - 1000) == Some(0)
            && 10_500 - log.snaps[0].slot == 10_000
  {
  }
}
