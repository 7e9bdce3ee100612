/** indexer/src/stream/writer.rs and indexer/src/domain: what writing one block does to the
    tables and to the LP-supply cache. Here a pool is named by its key; `BlockWriter` refines
    this to serial ids. */
module Indexer {
  import opened Wrappers
  import opened Numbers
  import opened EventCodec

  datatype DecodedEvent = DecodedEvent(signature: string, innerIxIdx: int, slot: int, event: Event)

  datatype BlockBatch = BlockBatch(slot: int, events: seq<DecodedEvent>)

  // ----- rows -----

  datatype PoolRow = PoolRow(
    pubkey: Key, config: Key, tokenMint: Key, lpMint: Key, creator: Key,
    solInitial: int, tokensInitial: int, lpSupplyInitial: int, slot: int, signature: string)

  /** A row of a table with UNIQUE (signature, inner_ix_idx); P names the pool it belongs to. */
  datatype Keyed<P, R> = Keyed(signature: string, innerIxIdx: int, pool: P, row: R)

  datatype Reserves = Reserves(solReserve: int, tokenReserve: int, lpSupply: int, lastSlot: int)

  datatype Swap = Swap(
    user: Key, solSource: Key, isBuy: bool,
    amountInGross: int, amountInNet: int, amountOutGross: int, amountOutNet: int, fee: int,
    solReserveAfter: int, tokenReserveAfter: int, slot: int)

  datatype Liquidity = Liquidity(
    provider: Key, isAdd: bool,
    solAmountGross: int, solAmountNet: int, tokensAmountGross: int, tokensAmountNet: int,
    lpUserAmount: int, lpLocked: int, lpSupplyAfter: int, slot: int)

  /** `x as i64` */
  function AsI64(x: u64): int {
    if x < 0x8000_0000_0000_0000 then x else x - TWO_64
  }

  function NewPool(de: DecodedEvent): PoolRow
    requires de.event.PoolCreated?
  {
    var p := de.event;
    PoolRow(p.pool, p.config, p.tokenMint, p.lpMint, p.creator,
            AsI64(p.solInNet), AsI64(p.tokensInNet), AsI64(p.lpSupplyAfter), de.slot, de.signature)
  }

  function NewReserves<P>(pool: P, lpSupply: int, de: DecodedEvent): Keyed<P, Reserves> {
    Keyed(de.signature, de.innerIxIdx, pool,
          Reserves(AsI64(de.event.solReserveAfter), AsI64(de.event.tokenReserveAfter), lpSupply, de.slot))
  }

  function NewSwap<P>(pool: P, de: DecodedEvent): Keyed<P, Swap>
    requires de.event.SwapExecuted?
  {
    var s := de.event;
    Keyed(de.signature, de.innerIxIdx, pool,
          Swap(s.user, s.solSource, s.buy, AsI64(s.amountInGross), AsI64(s.amountInNet),
               AsI64(s.amountOutGross), AsI64(s.amountOutNet), AsI64(s.fee),
               AsI64(s.solReserveAfter), AsI64(s.tokenReserveAfter), de.slot))
  }

  function NewLiquidity<P>(pool: P, de: DecodedEvent): Keyed<P, Liquidity>
    requires de.event.LiquidityAdded? || de.event.LiquidityRemoved?
  {
    var l := de.event;
    Keyed(de.signature, de.innerIxIdx, pool,
          if l.LiquidityAdded? then
            Liquidity(l.provider, true, AsI64(l.solInGross), AsI64(l.solInNet), AsI64(l.tokensInGross),
                      AsI64(l.tokensInNet), AsI64(l.lpToProvider), AsI64(l.lpLocked),
                      AsI64(l.lpSupplyAfter), de.slot)
          else
            Liquidity(l.provider, false, AsI64(l.solOutGross), AsI64(l.solOutNet), AsI64(l.tokensOutGross),
                      AsI64(l.tokensOutNet), AsI64(l.lpBurned), 0, AsI64(l.lpSupplyAfter), de.slot))
  }

  // ----- processing order -----

  /** Byte order of two strings. */
  predicate TextLe(a: string, b: string) {
    if a == [] then true
    else if b == [] then false
    else if a[0] == b[0] then TextLe(a[1..], b[1..])
    else a[0] < b[0]
  }

  /** (signature, inner_ix_idx) order. */
  predicate KeyLe(s: string, i: int, t: string, j: int) {
    if s == t then i <= j else TextLe(s, t)
  }

  predicate EventLe(a: DecodedEvent, b: DecodedEvent) {
    KeyLe(a.signature, a.innerIxIdx, b.signature, b.innerIxIdx)
  }

  function InsertSorted(e: DecodedEvent, es: seq<DecodedEvent>): seq<DecodedEvent> {
    if es == [] || EventLe(e, es[0]) then [e] + es else [es[0]] + InsertSorted(e, es[1..])
  }

  /** The stable sort of a block's events. */
  function SortEvents(es: seq<DecodedEvent>): seq<DecodedEvent> {
    if es == [] then [] else InsertSorted(es[0], SortEvents(es[1..]))
  }

  // ----- INSERT ... ON CONFLICT DO NOTHING RETURNING * -----

  predicate HasKey<P, R>(table: seq<Keyed<P, R>>, signature: string, innerIxIdx: int) {
    exists i :: 0 <= i < |table| && table[i].signature == signature && table[i].innerIxIdx == innerIxIdx
  }

  /** The rows an insert adds, in order. */
  function Inserted<P, R>(table: seq<Keyed<P, R>>, rows: seq<Keyed<P, R>>): (added: seq<Keyed<P, R>>)
    ensures |added| <= |rows|
    decreases |rows|
  {
    if rows == [] then []
    else if HasKey(table, rows[0].signature, rows[0].innerIxIdx) then Inserted(table, rows[1..])
    else [rows[0]] + Inserted(table + [rows[0]], rows[1..])
  }

  function PoolKeys(pools: seq<PoolRow>): set<Key> {
    set i | 0 <= i < |pools| :: pools[i].pubkey
  }

  function InsertedPools(pools: seq<PoolRow>, rows: seq<PoolRow>): seq<PoolRow>
    decreases |rows|
  {
    if rows == [] then []
    else if rows[0].pubkey in PoolKeys(pools) then InsertedPools(pools, rows[1..])
    else [rows[0]] + InsertedPools(pools + [rows[0]], rows[1..])
  }

  // ----- the two passes -----

  /** Pass 1: a row for every PoolCreated, in processing order. */
  function NewPools(events: seq<DecodedEvent>): seq<PoolRow> {
    if events == [] then []
    else (if events[0].event.PoolCreated? then [NewPool(events[0])] else []) + NewPools(events[1..])
  }

  type LpCache = map<Key, int>

  /** `cache.get(p).copied().unwrap_or(0)` */
  function CachedLp<P>(cache: map<P, int>, p: P): int {
    if p in cache then cache[p] else 0
  }

  /** The rows pass 2 builds, and the cache as it goes along. */
  datatype Batch<P> = Batch(
    cache: map<P, int>,
    reserves: seq<Keyed<P, Reserves>>,
    swaps: seq<Keyed<P, Swap>>,
    liquidity: seq<Keyed<P, Liquidity>>)

  /** One event of a known pool. A swap carries no LP supply, so it copies the cached one. */
  function Process<P>(b: Batch<P>, pool: P, de: DecodedEvent): Batch<P> {
    if de.event.SwapExecuted? then
      b.(swaps := b.swaps + [NewSwap(pool, de)],
         reserves := b.reserves + [NewReserves(pool, CachedLp(b.cache, pool), de)])
    else
      var lp := AsI64(de.event.lpSupplyAfter);
      var c := b.(cache := b.cache[pool := lp], reserves := b.reserves + [NewReserves(pool, lp, de)]);
      if de.event.PoolCreated? then c else c.(liquidity := c.liquidity + [NewLiquidity(pool, de)])
  }

  /** Pass 2; events of unknown pools are skipped. */
  function Pass2(events: seq<DecodedEvent>, known: set<Key>, cache: LpCache): Batch<Key> {
    if events == [] then Batch(cache, [], [], [])
    else
      var b := Pass2(events[..|events| - 1], known, cache);
      var de := events[|events| - 1];
      if de.event.pool in known then Process(b, de.event.pool, de) else b
  }

  /** What one more event of pass 2 adds to the batch. */
  ghost predicate Grown(b: Batch<Key>, b': Batch<Key>, e: DecodedEvent, known: set<Key>) {
    var p := e.event.pool;
    && b'.reserves == (if p in known then b.reserves + [NewReserves(p, CachedLp(b'.cache, p), e)] else b.reserves)
    && b'.swaps == (if p in known && e.event.SwapExecuted? then b.swaps + [NewSwap(p, e)] else b.swaps)
    && b'.liquidity == (if p in known && (e.event.LiquidityAdded? || e.event.LiquidityRemoved?)
                        then b.liquidity + [NewLiquidity(p, e)] else b.liquidity)
    && forall q :: q in known ==>
         CachedLp(b'.cache, q) == if p == q && !e.event.SwapExecuted? then AsI64(e.event.lpSupplyAfter)
                                  else CachedLp(b.cache, q)
  }

  lemma Pass2Next(es: seq<DecodedEvent>, e: DecodedEvent, known: set<Key>, cache: LpCache)
    ensures Grown(Pass2(es, known, cache), Pass2(es + [e], known, cache), e, known)
  {
    assert (es + [e])[..|es|] == es;
  }

  // ----- one block -----

  datatype Tables = Tables(
    pools: seq<PoolRow>,
    reserves: seq<Keyed<Key, Reserves>>,
    swaps: seq<Keyed<Key, Swap>>,
    liquidity: seq<Keyed<Key, Liquidity>>,
    checkpoint: Option<int>)

  const EMPTY_TABLES := Tables([], [], [], [], None)

  /** What `write_block` returns: the rows that were newly inserted. */
  datatype Written = Written(
    pools: seq<PoolRow>,
    reserves: seq<Keyed<Key, Reserves>>,
    swaps: seq<Keyed<Key, Swap>>,
    liquidity: seq<Keyed<Key, Liquidity>>)

  function NewBatch(t: Tables, cache: LpCache, block: BlockBatch): Batch<Key> {
    var events := SortEvents(block.events);
    Pass2(events, PoolKeys(t.pools + InsertedPools(t.pools, NewPools(events))), cache)
  }

  function WrittenBy(t: Tables, cache: LpCache, block: BlockBatch): Written {
    var b := NewBatch(t, cache, block);
    Written(InsertedPools(t.pools, NewPools(SortEvents(block.events))),
            Inserted(t.reserves, b.reserves), Inserted(t.swaps, b.swaps), Inserted(t.liquidity, b.liquidity))
  }

  function TablesAfter(t: Tables, cache: LpCache, block: BlockBatch): Tables {
    var w := WrittenBy(t, cache, block);
    Tables(t.pools + w.pools, t.reserves + w.reserves, t.swaps + w.swaps, t.liquidity + w.liquidity,
           Some(block.slot))
  }

  function CacheAfter(t: Tables, cache: LpCache, block: BlockBatch): LpCache {
    NewBatch(t, cache, block).cache
  }

  // ----- the queries -----

  /** The LP supply `load_lp_supply_cache` finds for a pool: of the rows in its highest slot, the
      one inserted last. */
  function LoadedRow<P(==)>(rows: seq<Keyed<P, Reserves>>, pool: P): (r: Option<Keyed<P, Reserves>>)
    ensures r.Some? ==> r.value in rows && r.value.pool == pool
    ensures r.None? ==> forall i :: 0 <= i < |rows| ==> rows[i].pool != pool
  {
    if rows == [] then None
    else
      var last := rows[|rows| - 1];
      var before := LoadedRow(rows[..|rows| - 1], pool);
      assert forall i :: 0 <= i < |rows| - 1 ==> rows[i] == rows[..|rows| - 1][i];
      if last.pool == pool && (before.None? || before.value.row.lastSlot <= last.row.lastSlot)
      then Some(last)
      else before
  }

  function LoadLpCache<P(==)>(rows: seq<Keyed<P, Reserves>>): map<P, int> {
    map i | 0 <= i < |rows| :: rows[i].pool := LoadedRow(rows, rows[i].pool).value.row.lpSupply
  }

  function LoadedLp<P(==)>(rows: seq<Keyed<P, Reserves>>, p: P): int {
    var r := LoadedRow(rows, p);
    if r.Some? then r.value.row.lpSupply else 0
  }

  lemma LoadIsLoaded<P>(rows: seq<Keyed<P, Reserves>>, p: P)
    ensures CachedLp(LoadLpCache(rows), p) == LoadedLp(rows, p)
  {
    var m := LoadLpCache(rows);
    var r := LoadedRow(rows, p);
    if r.Some? {
      var i :| 0 <= i < |rows| && rows[i] == r.value;
      assert rows[i].pool in m;
    }
  }

  /** r is the row `latest_for_pools` picks for its pool: the highest by slot, signature, index. */
  predicate IsLatest<P(==)>(rows: seq<Keyed<P, Reserves>>, r: Keyed<P, Reserves>) {
    && r in rows
    && forall i :: 0 <= i < |rows| && rows[i].pool == r.pool ==> RowLe(rows[i], r)
  }

  predicate RowLe<P>(a: Keyed<P, Reserves>, b: Keyed<P, Reserves>) {
    if a.row.lastSlot == b.row.lastSlot then KeyLe(a.signature, a.innerIxIdx, b.signature, b.innerIxIdx)
    else a.row.lastSlot < b.row.lastSlot
  }
}
