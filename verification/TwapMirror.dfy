/** packages/sdk/src/twap.ts: the SDK's copy of the oracle read, in unbounded bigints that are
    masked back to 128 bits. */
module TwapMirror {
  import opened Wrappers
  import opened Numbers
  import opened PoolMath
  import opened Oracle

  /** `x & MASK_128`: two's complement, so a negative x wraps as well. */
  function Mask128(x: int): int {
    x % TWO_128
  }

  function WrapMul(a: int, b: int): int {
    Mask128(a * b)
  }

  function WrapAdd(a: int, b: int): int {
    Mask128(a + b)
  }

  function WrapSub(a: int, b: int): int {
    Mask128(a - b)
  }

  /** The pool account as the SDK decodes it; the observations keep the ring's order. */
  datatype TwapPoolState = TwapPoolState(cumSolPerTok: u128, lastCumSlot: u64, observations: seq<Observation>)

  function FromDecodedPool(o: OracleState): TwapPoolState {
    TwapPoolState(o.cumSolPerTok, o.lastCumSlot, o.observations)
  }

  lemma EmptyWindow(target: u64)
    ensures WindowStart([], target) == None
  {
  }

  lemma WindowNext(ring: seq<Observation>, obs: Observation, target: u64)
    ensures WindowStart(ring + [obs], target) ==
              var kept := WindowStart(ring, target);
              if obs.slot == 0 || obs.slot > target then kept
              else if kept.None? || obs.slot > kept.value.slot then Some(obs)
              else kept
  {
    assert (ring + [obs])[..|ring|] == ring;
  }

  /** The scan for the window's start; `null` is `None`. */
  method FindStart(observations: seq<Observation>, target: u64) returns (start: Option<Observation>)
    ensures start == WindowStart(observations, target)
  {
    hide WindowStart;
    start := None;
    EmptyWindow(target);
    for i := 0 to |observations|
      invariant start == WindowStart(observations[..i], target)
    {
      var obs := observations[i];
      assert observations[..i + 1] == observations[..i] + [obs];
      WindowNext(observations[..i], obs, target);
      if obs.slot == 0 || obs.slot > target {
        continue;
      }
      if start.None? || obs.slot > start.value.slot {
        start := Some(obs);
      }
    }
    assert observations[..|observations|] == observations;
  }

  /** For every decoded account, reserves, slot and lookback, the SDK answers what the program
      answers: the same mark, or nothing in the same cases. */
  method ReadTwapSolPerTok(o: OracleState, solNow: u64, tokNow: u64, nowSlot: u64, lookback: u64)
    returns (mark: Option<int>)
    ensures mark.Some? <==> ReadTwap(o, solNow, tokNow, nowSlot, lookback).Some?
    ensures mark.Some? ==> mark.value == ReadTwap(o, solNow, tokNow, nowSlot, lookback).value
  {
    hide WindowStart;
    PriceQ64Floor(solNow, tokNow);
    var state := FromDecodedPool(o);
    if tokNow == 0 {
      return None;
    }
    var priceNow := solNow * TWO_64 / tokNow;
    assert PriceQ64(solNow, tokNow) == Some(priceNow);
    hide PriceQ64;
    var gap := if nowSlot > state.lastCumSlot then nowSlot - state.lastCumSlot else 0;
    var cumNow := WrapAdd(state.cumSolPerTok, WrapMul(priceNow, gap));
    assert cumNow == AccumulatePrice(o.cumSolPerTok, priceNow, SaturatingSub(nowSlot, o.lastCumSlot));
    hide AccumulatePrice;
    var start := FindStart(state.observations, if nowSlot > lookback then nowSlot - lookback else 0);
    if start.None? {
      return None;
    }
    var dt := if nowSlot > start.value.slot then nowSlot - start.value.slot else 0;
    if dt == 0 {
      return None;
    }
    return Some(WrapSub(cumNow, start.value.cumSolPerTok) / dt);
  }
}
