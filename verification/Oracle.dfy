/** programs/deep_pool/src/state.rs: the in-pool TWAP oracle. `OracleState` is the value of the
    account's oracle fields and the functions on it say what each method does; the class
    `PoolAccount` is the account itself, updated in place. */
module Oracle {
  import opened Wrappers
  import opened Numbers
  import opened PoolMath

  const TWAP_RING_SIZE: nat := 16
  const MIN_OBS_SPACING_SLOTS: u64 := 500
  const MIN_SPOT_RESERVE: u64 := 5_000_000_000

  datatype Observation = Observation(slot: u64, cumSolPerTok: u128, cumTokPerSol: u128)

  const NO_OBSERVATION := Observation(0, 0, 0)

  datatype OracleState = OracleState(
    cumSolPerTok: u128, cumTokPerSol: u128, lastCumSlot: u64,
    observations: seq<Observation>, obsHead: nat)
  {
    predicate WellFormed() {
      |observations| == TWAP_RING_SIZE && obsHead < TWAP_RING_SIZE
    }
  }

  function InitOracle(now: u64): OracleState {
    OracleState(0, 0, now, seq(TWAP_RING_SIZE, _ => NO_OBSERVATION), 0)
  }

  function NewestObs(o: OracleState): Observation
    requires o.WellFormed()
  {
    o.observations[if o.obsHead == 0 then TWAP_RING_SIZE - 1 else o.obsHead - 1]
  }

  function WriteObservation(o: OracleState, now: u64): (r: OracleState)
    requires o.WellFormed()
    ensures r.WellFormed()
  {
    o.(observations := o.observations[o.obsHead := Observation(now, o.cumSolPerTok, o.cumTokPerSol)],
       obsHead := (o.obsHead + 1) % TWAP_RING_SIZE)
  }

  /** Both heads moved on to `now` at the given reserves; `None` on a zero reserve. */
  function AdvanceHeads(o: OracleState, sol: u64, tok: u64, now: u64): (r: Option<OracleState>)
    requires o.lastCumSlot < now
  {
    var solPerTok :- PriceQ64(sol, tok);
    var tokPerSol :- PriceQ64(tok, sol);
    Some(o.(cumSolPerTok := AccumulatePrice(o.cumSolPerTok, solPerTok, now - o.lastCumSlot),
            cumTokPerSol := AccumulatePrice(o.cumTokPerSol, tokPerSol, now - o.lastCumSlot),
            lastCumSlot := now))
  }

  /** `None` is the MathOverflow error of a zero reserve. */
  function Record(o: OracleState, sol: u64, tok: u64, now: u64): (r: Option<OracleState>)
    requires o.WellFormed()
    ensures r.Some? ==> r.value.WellFormed()
  {
    if now <= o.lastCumSlot then Some(o)
    else if sol < MIN_SPOT_RESERVE then Some(o.(lastCumSlot := now))
    else
      var advanced :- AdvanceHeads(o, sol, tok, now);
      if SaturatingSub(now, NewestObs(o).slot) >= MIN_OBS_SPACING_SLOTS
      then Some(WriteObservation(advanced, now))
      else Some(advanced)
  }

  predicate Eligible(obs: Observation, target: u64) {
    obs.slot != 0 && obs.slot <= target
  }

  /** The observation a left-to-right scan keeps: the first of the newest eligible ones. */
  function WindowStart(ring: seq<Observation>, target: u64): (s: Option<Observation>)
    ensures s.None? ==> forall i :: 0 <= i < |ring| ==> !Eligible(ring[i], target)
    ensures s.Some? ==>
              && Eligible(s.value, target)
              && (exists i :: 0 <= i < |ring| && ring[i] == s.value)
              && (forall i :: 0 <= i < |ring| && Eligible(ring[i], target) ==> ring[i].slot <= s.value.slot)
  {
    if ring == [] then None
    else
      var obs := ring[|ring| - 1];
      var kept := WindowStart(ring[..|ring| - 1], target);
      assert forall i :: 0 <= i < |ring| - 1 ==> ring[i] == ring[..|ring| - 1][i];
      assert ring[|ring| - 1] == obs;
      if !Eligible(obs, target) then kept
      else if kept.None? || obs.slot > kept.value.slot then Some(obs)
      else kept
  }

  function ReadTwap(o: OracleState, solNow: u64, tokNow: u64, now: u64, lookback: u64): Option<u128> {
    var priceNow :- PriceQ64(solNow, tokNow);
    var cumNow := AccumulatePrice(o.cumSolPerTok, priceNow, SaturatingSub(now, o.lastCumSlot));
    var start :- WindowStart(o.observations, SaturatingSub(now, lookback));
    CheckedDiv(WrappingSub(cumNow, start.cumSolPerTok), SaturatingSub(now, start.slot))
  }

  /** The oracle part of the `Pool` account. */
  class PoolAccount {
    var cumSolPerTok: u128
    var cumTokPerSol: u128
    var lastCumSlot: u64
    const observations: array<Observation>
    var obsHead: nat

    ghost predicate Valid()
      reads this
    {
      observations.Length == TWAP_RING_SIZE && obsHead < TWAP_RING_SIZE
    }

    function State(): (o: OracleState)
      requires Valid()
      reads this, observations
      ensures o.WellFormed()
    {
      OracleState(cumSolPerTok, cumTokPerSol, lastCumSlot, observations[..], obsHead)
    }

    /** A freshly allocated account: all bytes zero. */
    constructor ()
      ensures Valid() && fresh(observations)
      ensures State() == InitOracle(0)
    {
      cumSolPerTok, cumTokPerSol, lastCumSlot, obsHead := 0, 0, 0, 0;
      observations := new Observation[TWAP_RING_SIZE](_ => NO_OBSERVATION);
    }

    method SeedOracle(now: u64)
      requires Valid()
      modifies this, observations
      ensures Valid() && State() == InitOracle(now)
    {
      cumSolPerTok, cumTokPerSol, lastCumSlot, obsHead := 0, 0, now, 0;
      forall i | 0 <= i < TWAP_RING_SIZE {
        observations[i] := NO_OBSERVATION;
      }
    }

    /** Puts back the bytes the runtime saved before a failed instruction. */
    method Restore(saved: OracleState)
      requires Valid() && saved.WellFormed()
      modifies this, observations
      ensures Valid() && State() == saved
    {
      cumSolPerTok, cumTokPerSol := saved.cumSolPerTok, saved.cumTokPerSol;
      lastCumSlot, obsHead := saved.lastCumSlot, saved.obsHead;
      forall i | 0 <= i < TWAP_RING_SIZE {
        observations[i] := saved.observations[i];
      }
    }

    method WriteSnapshot(now: u64)
      requires Valid()
      modifies this, observations
      ensures Valid() && State() == WriteObservation(old(State()), now)
    {
      observations[obsHead] := Observation(now, cumSolPerTok, cumTokPerSol);
      obsHead := (obsHead + 1) % TWAP_RING_SIZE;
    }

    /** Returns false for the MathOverflow error, with nothing changed. */
    method RecordObservation(sol: u64, tok: u64, now: u64) returns (ok: bool)
      requires Valid()
      modifies this, observations
      ensures Valid()
      ensures ok <==> Record(old(State()), sol, tok, now).Some?
      ensures State() == if ok then Record(old(State()), sol, tok, now).value else old(State())
    {
      if now <= lastCumSlot {
        return true;
      }
      if sol < MIN_SPOT_RESERVE {
        lastCumSlot := now;
        return true;
      }
      var slotDelta := now - lastCumSlot;
      var solPerTok := PriceQ64(sol, tok);
      if solPerTok.None? {
        return false;
      }
      var tokPerSol := PriceQ64(tok, sol);
      if tokPerSol.None? {
        return false;
      }
      cumSolPerTok := AccumulatePrice(cumSolPerTok, solPerTok.value, slotDelta);
      cumTokPerSol := AccumulatePrice(cumTokPerSol, tokPerSol.value, slotDelta);
      lastCumSlot := now;
      var newest := observations[if obsHead == 0 then TWAP_RING_SIZE - 1 else obsHead - 1];
      if SaturatingSub(now, newest.slot) >= MIN_OBS_SPACING_SLOTS {
        WriteSnapshot(now);
      }
      return true;
    }

    method ReadTwapSolPerTok(solNow: u64, tokNow: u64, now: u64, lookback: u64)
      returns (mark: Option<u128>)
      requires Valid()
      ensures mark == ReadTwap(State(), solNow, tokNow, now, lookback)
    {
      var gap := SaturatingSub(now, lastCumSlot);
      var priceNow := PriceQ64(solNow, tokNow);
      if priceNow.None? {
        return None;
      }
      var cumNow := AccumulatePrice(cumSolPerTok, priceNow.value, gap);
      var target := SaturatingSub(now, lookback);
      var start: Option<Observation> := None;
      var i := 0;
      while i < observations.Length
        invariant 0 <= i <= observations.Length
        invariant start == WindowStart(observations[..i], target)
      {
        var obs := observations[i];
        assert observations[..i + 1][..i] == observations[..i];
        if Eligible(obs, target) {
          if start.None? || obs.slot > start.value.slot {
            start := Some(obs);
          }
        }
        i := i + 1;
      }
      assert observations[..] == observations[..i];
      if start.None? {
        return None;
      }
      var dt := SaturatingSub(now, start.value.slot);
      if dt == 0 {
        return None;
      }
      return CheckedDiv(WrappingSub(cumNow, start.value.cumSolPerTok), dt);
    }
  }
}
