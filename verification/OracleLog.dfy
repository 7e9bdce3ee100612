/** What the bounded, wrapping oracle stands for: an unbounded log of price intervals and
    of snapshots, and the proof that the 16-slot ring and the mod-2^128 heads refine it. */
module OracleLog {
  import opened Wrappers
  import opened Numbers
  import opened PoolMath
  import opened Oracle

  datatype Direction = SolPerTok | TokPerSol

  /** The reserves that held from slot `from` to slot `to`. */
  datatype Interval = Interval(from: u64, to: u64, sol: u64, tok: u64) {
    predicate Dust() {
      sol < 5_000_000_000
    }
  }

  function PriceIn(i: Interval, d: Direction): nat {
    var p := if d.SolPerTok? then PriceQ64(i.sol, i.tok) else PriceQ64(i.tok, i.sol);
    if p.Some? then p.value else 0
  }

  /** What the interval adds to the integral: a dust interval adds nothing. */
  function Weight(i: Interval, d: Direction): nat
    requires i.from <= i.to
  {
    if i.Dust() then 0 else PriceIn(i, d) * (i.to - i.from)
  }

  predicate Ordered(history: seq<Interval>) {
    forall i :: 0 <= i < |history| ==> history[i].from < history[i].to
  }

  /** The true, unbounded price integral. */
  function Integral(history: seq<Interval>, d: Direction): nat
    requires Ordered(history)
  {
    if history == [] then 0
    else Integral(history[..|history| - 1], d) + Weight(history[|history| - 1], d)
  }

  /** A snapshot taken at `slot`, after the first `mark` intervals. */
  datatype Snap = Snap(slot: u64, mark: nat)

  datatype Log = Log(birth: u64, history: seq<Interval>, snaps: seq<Snap>) {
    function Last(): u64 {
      if history == [] then birth else history[|history| - 1].to
    }

    /** The intervals follow one another without gaps. */
    ghost predicate Tiled() {
      && Ordered(history)
      && (|history| > 0 ==> history[0].from == birth)
      && (forall i, j :: 0 <= i < j < |history| && j == i + 1 ==> history[j].from == history[i].to)
    }

    /** Every snapshot sits at the end of an interval, and they are at least 500 slots apart. */
    ghost predicate Spaced() {
      && (forall j :: 0 <= j < |snaps| ==>
            0 < snaps[j].mark <= |history| && snaps[j].slot == history[snaps[j].mark - 1].to)
      && (|snaps| > 0 ==> snaps[0].slot >= 500)
      && (forall i, j :: 0 <= i < j < |snaps| ==>
            snaps[i].slot + 500 * (j - i) <= snaps[j].slot)
    }

    ghost predicate WellFormed() {
      Tiled() && Spaced()
    }
  }

  function NewestSlot(log: Log): u64 {
    if log.snaps == [] then 0 else log.snaps[|log.snaps| - 1].slot
  }

  function EmptyLog(now: u64): Log {
    Log(now, [], [])
  }

  /** Recording on the log: every interval is kept and no snapshot is ever overwritten. */
  function RecordLog(log: Log, sol: u64, tok: u64, now: u64): Option<Log> {
    if now <= log.Last() then Some(log)
    else if sol >= MIN_SPOT_RESERVE && tok == 0 then None
    else
      var grown := log.(history := log.history + [Interval(log.Last(), now, sol, tok)]);
      if sol >= MIN_SPOT_RESERVE && SaturatingSub(now, NewestSlot(log)) >= MIN_OBS_SPACING_SLOTS
      then Some(grown.(snaps := log.snaps + [Snap(now, |grown.history|)]))
      else Some(grown)
  }

  /** The ring entry a snapshot is stored as. */
  function Image(log: Log, s: Snap): Observation
    requires Ordered(log.history) && s.mark <= |log.history|
  {
    Observation(s.slot,
                Integral(log.history[..s.mark], SolPerTok) % TWO_128,
                Integral(log.history[..s.mark], TokPerSol) % TWO_128)
  }

  /** All snapshots, as the ring entries they were stored as. */
  ghost function Images(log: Log): (es: seq<Observation>)
    requires log.WellFormed()
    ensures |es| == |log.snaps|
  {
    seq(|log.snaps|, j requires 0 <= j < |log.snaps| => Image(log, log.snaps[j]))
  }

  /** Entry j of n is among the last 16. */
  predicate Retained(n: nat, j: int) {
    0 <= j < n <= j + TWAP_RING_SIZE
  }

  /** The ring entry that snapshot j occupies: j mod 16. */
  function Place(j: nat): (p: nat)
    ensures p < TWAP_RING_SIZE
    ensures j < TWAP_RING_SIZE ==> p == j
  {
    if j < TWAP_RING_SIZE then j else Place(j - TWAP_RING_SIZE)
  }

  lemma {:induction false} PlaceIsModulo(j: nat)
    ensures Place(j) == j % TWAP_RING_SIZE
  {
    if j >= TWAP_RING_SIZE {
      PlaceIsModulo(j - TWAP_RING_SIZE);
    }
  }

  lemma PlaceNext(j: nat)
    ensures Place(j + 1) == (Place(j) + 1) % TWAP_RING_SIZE
    ensures Place(j) == if Place(j + 1) == 0 then TWAP_RING_SIZE - 1 else Place(j + 1) - 1
  {
    PlaceIsModulo(j);
    PlaceIsModulo(j + 1);
    hide Place;
    NextModulo(j);
  }

  lemma NextModulo(j: nat)
    ensures (j + 1) % 16 == if j % 16 == 15 then 0 else j % 16 + 1
  {
    assert j == 16 * (j / 16) + j % 16;
  }

  /** Sixteen snapshots in a row occupy sixteen different entries. */
  lemma PlaceDistinct(j: nat, n: nat)
    requires j < n < j + TWAP_RING_SIZE
    ensures Place(j) != Place(n)
  {
    PlaceIsModulo(j);
    PlaceIsModulo(n);
  }

  /** The ring holds exactly the last 16 of the entries in circular order; places never
      written are empty. */
  ghost predicate RingHolds(ring: seq<Observation>, obsHead: nat, entries: seq<Observation>) {
    && |ring| == TWAP_RING_SIZE
    && obsHead == Place(|entries|)
    && (forall j :: Retained(|entries|, j) ==> ring[Place(j)] == entries[j])
    && (forall i :: |entries| <= i < TWAP_RING_SIZE ==> ring[i] == NO_OBSERVATION)
  }

  /** The heads are the log's integrals mod 2^128. */
  ghost predicate HeadsHold(o: OracleState, log: Log)
    requires log.WellFormed()
  {
    && o.lastCumSlot == log.Last()
    && o.cumSolPerTok == Integral(log.history, SolPerTok) % TWO_128
    && o.cumTokPerSol == Integral(log.history, TokPerSol) % TWO_128
  }

  ghost predicate Refines(o: OracleState, log: Log) {
    && o.WellFormed() && log.WellFormed()
    && HeadsHold(o, log)
    && RingHolds(o.observations, o.obsHead, Images(log))
  }

  // ----- the refinement -----

  lemma InitRefines(now: u64)
    ensures Refines(InitOracle(now), EmptyLog(now))
  {
  }

  lemma WrapStep(a: nat, p: nat, d: nat)
    ensures (a % TWO_128 + (p * d) % TWO_128) % TWO_128 == (a + p * d) % TWO_128
  {
    ModAdd(a, p * d);
  }

  lemma ModAdd(a: int, b: int)
    ensures (a % TWO_128 + b % TWO_128) % TWO_128 == (a + b) % TWO_128
  {
  }

  lemma ModSub(a: int, b: int)
    ensures (a % TWO_128 - b % TWO_128) % TWO_128 == (a - b) % TWO_128
  {
  }

  lemma NewestAgree(o: OracleState, log: Log)
    requires o.WellFormed() && log.WellFormed() && RingHolds(o.observations, o.obsHead, Images(log))
    ensures NewestObs(o).slot == NewestSlot(log)
  {
    hide Integral, Place;
    var n := |log.snaps|;
    if n > 0 {
      assert Retained(n, n - 1);
      PlaceNext(n - 1);
    }
  }

  /** One more interval leaves the log tiled and moves no earlier edge. */
  lemma GrowTiled(log: Log, i: Interval) returns (grown: Log)
    requires log.WellFormed() && i.from == log.Last() && i.from < i.to
    ensures grown == log.(history := log.history + [i])
    ensures grown.WellFormed() && grown.Last() == i.to
    ensures forall d :: Integral(grown.history, d) == Integral(log.history, d) + Weight(i, d)
    ensures forall m :: 0 <= m <= |log.history| ==> grown.history[..m] == log.history[..m]
  {
    grown := log.(history := log.history + [i]);
    assert grown.history[..|log.history|] == log.history;
  }

  /** Growing the history changes no earlier snapshot's image. */
  lemma GrowKeepsImages(log: Log, grown: Log)
    requires log.WellFormed() && grown.WellFormed() && grown.snaps == log.snaps
    requires |log.history| <= |grown.history|
    requires forall m :: 0 <= m <= |log.history| ==> grown.history[..m] == log.history[..m]
    ensures Images(grown) == Images(log)
  {
    forall j | 0 <= j < |log.snaps|
      ensures Image(grown, grown.snaps[j]) == Image(log, log.snaps[j])
    {
      assert grown.history[..log.snaps[j].mark] == log.history[..log.snaps[j].mark];
    }
  }

  /** Both heads move on by the weight of the interval, or stay put on a dust interval. */
  lemma AdvanceHeadsHold(o: OracleState, log: Log, sol: u64, tok: u64, now: u64) returns (grown: Log)
    requires log.WellFormed() && HeadsHold(o, log) && now > log.Last()
    requires sol >= MIN_SPOT_RESERVE ==> tok > 0
    ensures grown == log.(history := log.history + [Interval(log.Last(), now, sol, tok)])
    ensures grown.WellFormed() && grown.Last() == now
    ensures forall m :: 0 <= m <= |log.history| ==> grown.history[..m] == log.history[..m]
    ensures sol < MIN_SPOT_RESERVE ==> HeadsHold(o.(lastCumSlot := now), grown)
    ensures sol >= MIN_SPOT_RESERVE ==>
              && AdvanceHeads(o, sol, tok, now).Some?
              && HeadsHold(AdvanceHeads(o, sol, tok, now).value, grown)
  {
    var i := Interval(log.Last(), now, sol, tok);
    grown := GrowTiled(log, i);
    hide Log.Tiled, Log.Spaced, Integral;
    if sol >= MIN_SPOT_RESERVE {
      PriceQ64Floor(sol, tok);
      PriceQ64Floor(tok, sol);
      hide PriceQ64;
      WrapStep(Integral(log.history, SolPerTok), PriceIn(i, SolPerTok), now - o.lastCumSlot);
      WrapStep(Integral(log.history, TokPerSol), PriceIn(i, TokPerSol), now - o.lastCumSlot);
    }
  }

  /** Writing one more entry evicts exactly the sixteenth newest. */
  lemma WriteKeepsRing(ring: seq<Observation>, obsHead: nat, entries: seq<Observation>, entry: Observation)
    requires |ring| == TWAP_RING_SIZE && obsHead < TWAP_RING_SIZE
    requires RingHolds(ring, obsHead, entries)
    ensures RingHolds(ring[obsHead := entry], (obsHead + 1) % TWAP_RING_SIZE, entries + [entry])
  {
    hide Place;
    var n := |entries|;
    PlaceNext(n);
    forall j | Retained(n + 1, j)
      ensures ring[Place(n) := entry][Place(j)] == (entries + [entry])[j]
    {
      WriteKeepsEntry(ring, entries, entry, j);
    }
  }

  lemma WriteKeepsEntry(ring: seq<Observation>, entries: seq<Observation>, entry: Observation, j: int)
    requires RingHolds(ring, Place(|entries|), entries)
    requires Retained(|entries| + 1, j)
    ensures ring[Place(|entries|) := entry][Place(j)] == (entries + [entry])[j]
  {
    if j < |entries| {
      assert Retained(|entries|, j);
      PlaceDistinct(j, |entries|);
    }
  }

  lemma SnapshotKeepsLog(log: Log, snap: Snap) returns (grown: Log)
    requires log.WellFormed() && |log.history| > 0
    requires snap == Snap(log.Last(), |log.history|)
    requires log.Last() - NewestSlot(log) >= MIN_OBS_SPACING_SLOTS
    ensures grown == log.(snaps := log.snaps + [snap])
    ensures grown.WellFormed() && grown.Last() == log.Last()
    ensures Images(grown) == Images(log) + [Image(log, snap)]
  {
    hide Integral;
    grown := log.(snaps := log.snaps + [snap]);
    assert grown.Spaced();
  }

  lemma SnapshotRefines(o: OracleState, log: Log)
    requires Refines(o, log) && |log.history| > 0
    requires log.Last() - NewestSlot(log) >= MIN_OBS_SPACING_SLOTS
    ensures Refines(WriteObservation(o, log.Last()),
                    log.(snaps := log.snaps + [Snap(log.Last(), |log.history|)]))
  {
    hide RingHolds, Images, Integral, Place;
    var snap := Snap(log.Last(), |log.history|);
    assert log.history[..snap.mark] == log.history;
    var grown := SnapshotKeepsLog(log, snap);
    var written := WriteObservation(o, log.Last());
    assert HeadsHold(written, grown);
    assert RingHolds(written.observations, written.obsHead, Images(grown)) by {
      WriteKeepsRing(o.observations, o.obsHead, Images(log), Image(log, snap));
    }
  }

  /** Every record on the ring is the record on the log: same failures, same refinement. */
  lemma RecordRefines(o: OracleState, log: Log, sol: u64, tok: u64, now: u64)
    requires Refines(o, log)
    ensures Record(o, sol, tok, now).Some? <==> RecordLog(log, sol, tok, now).Some?
    ensures Record(o, sol, tok, now).Some? ==>
              Refines(Record(o, sol, tok, now).value, RecordLog(log, sol, tok, now).value)
  {
    hide Integral, RingHolds, Images;
    PriceQ64Floor(sol, tok);
    PriceQ64Floor(tok, sol);
    if now > log.Last() && (sol >= MIN_SPOT_RESERVE ==> tok > 0) {
      var grown := AdvanceHeadsHold(o, log, sol, tok, now);
      GrowKeepsImages(log, grown);
      NewestAgree(o, log);
      if sol >= MIN_SPOT_RESERVE && SaturatingSub(now, NewestSlot(log)) >= MIN_OBS_SPACING_SLOTS {
        SnapshotRefines(AdvanceHeads(o, sol, tok, now).value, grown);
      }
    }
  }

  /** One call of `record_observation`; a failed call leaves the account as it was. */
  datatype Call = Call(sol: u64, tok: u64, now: u64)

  function RunOracle(o: OracleState, calls: seq<Call>): (r: OracleState)
    requires o.WellFormed()
    ensures r.WellFormed()
    decreases |calls|
  {
    if calls == [] then o
    else
      var r := Record(o, calls[0].sol, calls[0].tok, calls[0].now);
      RunOracle(if r.Some? then r.value else o, calls[1..])
  }

  function RunLog(log: Log, calls: seq<Call>): Log
    decreases |calls|
  {
    if calls == [] then log
    else
      var r := RecordLog(log, calls[0].sol, calls[0].tok, calls[0].now);
      RunLog(if r.Some? then r.value else log, calls[1..])
  }

  /** Over every run of calls, in any order of slots, the ring and heads are the log's. */
  lemma {:induction false} RunRefines(o: OracleState, log: Log, calls: seq<Call>)
    requires Refines(o, log)
    ensures Refines(RunOracle(o, calls), RunLog(log, calls))
    decreases |calls|
  {
    if calls != [] {
      RecordRefines(o, log, calls[0].sol, calls[0].tok, calls[0].now);
      var r := Record(o, calls[0].sol, calls[0].tok, calls[0].now);
      var l := RecordLog(log, calls[0].sol, calls[0].tok, calls[0].now);
      RunRefines(if r.Some? then r.value else o, if l.Some? then l.value else log, calls[1..]);
    }
  }
}
