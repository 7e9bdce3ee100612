/** Restarts, reconnects and re-deliveries converge: whatever the indexer process goes through,
    its tables are those of one clean pass over the stream. */
module Replay {
  import opened Wrappers
  import opened Numbers
  import opened EventCodec
  import opened Indexer

  // ----- the stream -----

  /** What the chain and the subscription guarantee of the block stream: slots rise, an event is
      tagged with its block's slot, a pool's creation never comes in a later block than another
      of its events, and (signature, index) names an event. */
  ghost predicate ValidStream(blocks: seq<BlockBatch>) {
    && (forall i, j :: 0 <= i < j < |blocks| ==> blocks[i].slot < blocks[j].slot)
    && (forall i, a :: 0 <= i < |blocks| && 0 <= a < |blocks[i].events| ==>
          blocks[i].events[a].slot == blocks[i].slot)
    && CreatedFirst(blocks)
    && UniqueKeys(blocks)
  }

  ghost predicate CreatedFirst(blocks: seq<BlockBatch>) {
    forall i, j, e, f ::
      (0 <= i < j < |blocks| && e in blocks[i].events && f in blocks[j].events && f.event.PoolCreated?)
      ==> f.event.pool != e.event.pool
  }

  predicate SameKey(e: DecodedEvent, f: DecodedEvent) {
    e.signature == f.signature && e.innerIxIdx == f.innerIxIdx
  }

  ghost predicate UniqueKeys(blocks: seq<BlockBatch>) {
    && (forall i, j, e, f :: 0 <= i < j < |blocks| && e in blocks[i].events && f in blocks[j].events ==>
          !SameKey(e, f))
    && (forall i :: 0 <= i < |blocks| ==> DistinctKeys(blocks[i].events))
  }

  ghost predicate DistinctKeys(es: seq<DecodedEvent>) {
    forall a, b :: 0 <= a < b < |es| ==> !SameKey(es[a], es[b])
  }

  // ----- one clean pass -----

  function CleanTables(blocks: seq<BlockBatch>): Tables
    decreases |blocks|, 1
  {
    if blocks == [] then EMPTY_TABLES
    else
      var before := blocks[..|blocks| - 1];
      TablesAfter(CleanTables(before), CleanCache(before), blocks[|blocks| - 1])
  }

  function CleanCache(blocks: seq<BlockBatch>): LpCache
    decreases |blocks|, 1
  {
    if blocks == [] then map[]
    else
      var before := blocks[..|blocks| - 1];
      CacheAfter(CleanTables(before), CleanCache(before), blocks[|blocks| - 1])
  }

  // ----- the sort loses nothing -----

  lemma {:induction false} InsertSortedMembers(e: DecodedEvent, es: seq<DecodedEvent>)
    ensures forall x :: x in InsertSorted(e, es) <==> x == e || x in es
    decreases |es|
  {
    if es != [] && !EventLe(e, es[0]) {
      InsertSortedMembers(e, es[1..]);
      assert es == [es[0]] + es[1..];
    }
  }

  lemma {:induction false} SortMembers(es: seq<DecodedEvent>)
    ensures forall x :: x in SortEvents(es) <==> x in es
    decreases |es|
  {
    if es != [] {
      SortMembers(es[1..]);
      InsertSortedMembers(es[0], SortEvents(es[1..]));
      assert es == [es[0]] + es[1..];
    }
  }

  lemma {:induction false} InsertSortedDistinct(e: DecodedEvent, es: seq<DecodedEvent>)
    requires DistinctKeys(es) && forall x :: x in es ==> !SameKey(e, x)
    ensures DistinctKeys(InsertSorted(e, es))
    decreases |es|
  {
    if es != [] && !EventLe(e, es[0]) {
      var rest := InsertSorted(e, es[1..]);
      InsertSortedDistinct(e, es[1..]);
      InsertSortedMembers(e, es[1..]);
      forall b | 0 <= b < |rest|
        ensures !SameKey(es[0], rest[b])
      {
        assert rest[b] in rest;
      }
    }
  }

  lemma {:induction false} SortDistinct(es: seq<DecodedEvent>)
    requires DistinctKeys(es)
    ensures DistinctKeys(SortEvents(es))
    decreases |es|
  {
    if es != [] {
      SortDistinct(es[1..]);
      SortMembers(es[1..]);
      InsertSortedDistinct(es[0], SortEvents(es[1..]));
    }
  }

  // ----- which pools are known -----

  ghost predicate Creates(es: seq<DecodedEvent>, p: Key) {
    exists e :: e in es && e.event.PoolCreated? && e.event.pool == p
  }

  ghost predicate CreatedIn(blocks: seq<BlockBatch>, p: Key) {
    exists i :: 0 <= i < |blocks| && Creates(blocks[i].events, p)
  }

  lemma {:induction false} NewPoolsCreate(es: seq<DecodedEvent>, p: Key)
    ensures p in PoolKeys(NewPools(es)) <==> Creates(es, p)
    decreases |es|
  {
    if es != [] {
      NewPoolsCreate(es[1..], p);
      var head := if es[0].event.PoolCreated? then [NewPool(es[0])] else [];
      PoolKeysConcat(head, NewPools(es[1..]));
      assert es == [es[0]] + es[1..];
    }
  }

  lemma PoolKeysConcat(a: seq<PoolRow>, b: seq<PoolRow>)
    ensures PoolKeys(a + b) == PoolKeys(a) + PoolKeys(b)
  {
    forall k | k in PoolKeys(b)
      ensures k in PoolKeys(a + b)
    {
      var i :| 0 <= i < |b| && b[i].pubkey == k;
      assert (a + b)[|a| + i] == b[i];
    }
    forall k | k in PoolKeys(a)
      ensures k in PoolKeys(a + b)
    {
      var i :| 0 <= i < |a| && a[i].pubkey == k;
      assert (a + b)[i] == a[i];
    }
  }

  lemma {:induction false} InsertedPoolsKeys(pools: seq<PoolRow>, rows: seq<PoolRow>)
    ensures PoolKeys(pools + InsertedPools(pools, rows)) == PoolKeys(pools) + PoolKeys(rows)
    ensures PoolKeys(rows) <= PoolKeys(pools) ==> InsertedPools(pools, rows) == []
    decreases |rows|
  {
    if rows == [] {
      assert pools + [] == pools;
    } else {
      assert rows == [rows[0]] + rows[1..];
      PoolKeysConcat([rows[0]], rows[1..]);
      assert PoolKeys([rows[0]]) == {rows[0].pubkey};
      hide PoolKeys;
      if rows[0].pubkey in PoolKeys(pools) {
        InsertedPoolsKeys(pools, rows[1..]);
      } else {
        InsertedPoolsKeys(pools + [rows[0]], rows[1..]);
        PoolKeysConcat(pools, [rows[0]]);
        var rest := InsertedPools(pools + [rows[0]], rows[1..]);
        assert pools + ([rows[0]] + rest) == pools + [rows[0]] + rest;
      }
    }
  }

  ghost function Known(blocks: seq<BlockBatch>): set<Key> {
    PoolKeys(CleanTables(blocks).pools)
  }

  lemma KnownNext(blocks: seq<BlockBatch>, p: Key)
    requires blocks != []
    ensures var n := |blocks| - 1;
            p in Known(blocks) <==> p in Known(blocks[..n]) || Creates(blocks[n].events, p)
  {
    var n := |blocks| - 1;
    var events := SortEvents(blocks[n].events);
    InsertedPoolsKeys(CleanTables(blocks[..n]).pools, NewPools(events));
    NewPoolsCreate(events, p);
    SortMembers(blocks[n].events);
    hide PoolKeys, NewPools, InsertedPools, SortEvents;
  }

  /** The pools known after a clean pass are exactly those whose creation was in it. */
  lemma {:induction false} KnownIffCreated(blocks: seq<BlockBatch>, p: Key)
    ensures p in Known(blocks) <==> CreatedIn(blocks, p)
    decreases |blocks|
  {
    if blocks != [] {
      var n := |blocks| - 1;
      KnownNext(blocks, p);
      KnownIffCreated(blocks[..n], p);
      hide Known, Creates;
      assert forall i :: 0 <= i < n ==> blocks[..n][i] == blocks[i];
    }
  }

  /** Within a valid stream an event's pool is known by its own block or not at all. */
  lemma KnownInTime(blocks: seq<BlockBatch>, c: nat, i: nat, e: DecodedEvent)
    requires ValidStream(blocks) && i < c <= |blocks| && e in blocks[i].events
    ensures e.event.pool in Known(blocks[..c]) <==> e.event.pool in Known(blocks[..i + 1])
  {
    hide Known, UniqueKeys;
    var p := e.event.pool;
    KnownIffCreated(blocks[..c], p);
    KnownGrows(blocks, i + 1, c);
    if CreatedIn(blocks[..c], p) {
      var j :| 0 <= j < c && Creates(blocks[..c][j].events, p);
      var f :| f in blocks[j].events && f.event.PoolCreated? && f.event.pool == p;
      assert j <= i;
      assert Creates(blocks[..i + 1][j].events, p);
      KnownIffCreated(blocks[..i + 1], p);
    }
  }

  lemma KnownGrows(blocks: seq<BlockBatch>, c: nat, d: nat)
    requires c <= d <= |blocks|
    ensures Known(blocks[..c]) <= Known(blocks[..d])
  {
    forall p | p in Known(blocks[..c])
      ensures p in Known(blocks[..d])
    {
      KnownIffCreated(blocks[..c], p);
      KnownIffCreated(blocks[..d], p);
      var j :| 0 <= j < c && Creates(blocks[..c][j].events, p);
      assert blocks[..d][j] == blocks[j];
    }
  }

  // ----- rows and their keys -----

  datatype Table = ReservesTable | SwapsTable | LiquidityTable

  /** The events that get a row in a table. */
  predicate Feeds(e: DecodedEvent, k: Table) {
    match k
    case ReservesTable => true
    case SwapsTable => e.event.SwapExecuted?
    case LiquidityTable => e.event.LiquidityAdded? || e.event.LiquidityRemoved?
  }

  ghost predicate Wanted(e: DecodedEvent, es: seq<DecodedEvent>, known: set<Key>, k: Table) {
    e in es && e.event.pool in known && Feeds(e, k)
  }

  /** The row has the key of some wanted event. */
  ghost predicate HasWanted<R(!new)>(r: Keyed<Key, R>, es: seq<DecodedEvent>, known: set<Key>, k: Table) {
    exists e :: Wanted(e, es, known, k) && r.signature == e.signature && r.innerIxIdx == e.innerIxIdx
  }

  /** Every row is some wanted event's, and every wanted event has a row. */
  ghost predicate RowsOf<R(!new)>(rows: seq<Keyed<Key, R>>, es: seq<DecodedEvent>, known: set<Key>, k: Table) {
    && (forall i :: 0 <= i < |rows| ==> HasWanted(rows[i], es, known, k))
    && (forall e :: Wanted(e, es, known, k) ==> HasKey(rows, e.signature, e.innerIxIdx))
  }

  lemma RowsOfNext<R(!new)>(rows: seq<Keyed<Key, R>>, es: seq<DecodedEvent>, known: set<Key>, k: Table,
                            e: DecodedEvent, r: Keyed<Key, R>)
    requires RowsOf(rows, es, known, k) && r.signature == e.signature && r.innerIxIdx == e.innerIxIdx
    ensures RowsOf(if e.event.pool in known && Feeds(e, k) then rows + [r] else rows, es + [e], known, k)
  {
    var wanted := e.event.pool in known && Feeds(e, k);
    var rows' := if wanted then rows + [r] else rows;
    forall i | 0 <= i < |rows'|
      ensures HasWanted(rows'[i], es + [e], known, k)
    {
      if i < |rows| {
        assert HasWanted(rows[i], es, known, k);
        var f :| Wanted(f, es, known, k) && rows[i].signature == f.signature && rows[i].innerIxIdx == f.innerIxIdx;
        assert Wanted(f, es + [e], known, k);
      } else {
        assert Wanted(e, es + [e], known, k);
      }
    }
    forall f | Wanted(f, es + [e], known, k)
      ensures HasKey(rows', f.signature, f.innerIxIdx)
    {
      if f in es {
        assert Wanted(f, es, known, k);
        HasKeyGrows(rows, rows', f.signature, f.innerIxIdx);
      } else {
        assert rows'[|rows|] == r;
      }
    }
  }

  lemma HasKeyGrows<P, R>(rows: seq<Keyed<P, R>>, more: seq<Keyed<P, R>>, s: string, i: int)
    requires HasKey(rows, s, i) && rows <= more
    ensures HasKey(more, s, i)
  {
    var j :| 0 <= j < |rows| && rows[j].signature == s && rows[j].innerIxIdx == i;
    assert more[j] == rows[j];
  }

  lemma {:induction false} Pass2Rows(es: seq<DecodedEvent>, known: set<Key>, cache: LpCache)
    ensures RowsOf(Pass2(es, known, cache).reserves, es, known, ReservesTable)
    ensures RowsOf(Pass2(es, known, cache).swaps, es, known, SwapsTable)
    ensures RowsOf(Pass2(es, known, cache).liquidity, es, known, LiquidityTable)
    decreases |es|
  {
    if es != [] {
      var before, e := es[..|es| - 1], es[|es| - 1];
      assert es == before + [e];
      Pass2Next(before, e, known, cache);
      hide *;
      Pass2Rows(before, known, cache);
      GrownRows(before, e, known, Pass2(before, known, cache), Pass2(es, known, cache));
    }
  }

  lemma GrownRows(before: seq<DecodedEvent>, e: DecodedEvent, known: set<Key>, b: Batch<Key>, b': Batch<Key>)
    requires Grown(b, b', e, known)
    requires RowsOf(b.reserves, before, known, ReservesTable)
    requires RowsOf(b.swaps, before, known, SwapsTable)
    requires RowsOf(b.liquidity, before, known, LiquidityTable)
    ensures RowsOf(b'.reserves, before + [e], known, ReservesTable)
    ensures RowsOf(b'.swaps, before + [e], known, SwapsTable)
    ensures RowsOf(b'.liquidity, before + [e], known, LiquidityTable)
  {
    hide RowsOf, CachedLp;
    var p := e.event.pool;
    RowsOfNext(b.reserves, before, known, ReservesTable, e, NewReserves(p, CachedLp(b'.cache, p), e));
    RowsOfNext(b.swaps, before, known, SwapsTable, e, SwapRow(e));
    RowsOfNext(b.liquidity, before, known, LiquidityTable, e, LiquidityRow(e));
  }

  /** The event's row, or for an event that gets none some row with its key. */
  function SwapRow(e: DecodedEvent): Keyed<Key, Swap> {
    if e.event.SwapExecuted? then NewSwap(e.event.pool, e)
    else Keyed(e.signature, e.innerIxIdx, e.event.pool, Swap(e.event.pool, e.event.pool, true, 0, 0, 0, 0, 0, 0, 0, 0))
  }

  function LiquidityRow(e: DecodedEvent): Keyed<Key, Liquidity> {
    if e.event.LiquidityAdded? || e.event.LiquidityRemoved? then NewLiquidity(e.event.pool, e)
    else Keyed(e.signature, e.innerIxIdx, e.event.pool, Liquidity(e.event.pool, true, 0, 0, 0, 0, 0, 0, 0, 0))
  }

  // ----- what an insert adds -----

  lemma {:induction false} InsertedNothing<P, R>(table: seq<Keyed<P, R>>, rows: seq<Keyed<P, R>>)
    requires forall i :: 0 <= i < |rows| ==> HasKey(table, rows[i].signature, rows[i].innerIxIdx)
    ensures Inserted(table, rows) == []
    decreases |rows|
  {
    if rows != [] {
      InsertedNothing(table, rows[1..]);
    }
  }

  lemma {:induction false} InsertedCovers<P, R>(table: seq<Keyed<P, R>>, rows: seq<Keyed<P, R>>, i: nat)
    requires i < |rows|
    ensures HasKey(table + Inserted(table, rows), rows[i].signature, rows[i].innerIxIdx)
    decreases |rows|
  {
    var r := rows[0];
    if HasKey(table, r.signature, r.innerIxIdx) {
      if i == 0 {
        HasKeyGrows(table, table + Inserted(table, rows), r.signature, r.innerIxIdx);
      } else {
        InsertedCovers(table, rows[1..], i - 1);
      }
    } else {
      var rest := Inserted(table + [r], rows[1..]);
      assert table + Inserted(table, rows) == table + [r] + rest;
      if i == 0 {
        assert (table + [r] + rest)[|table|] == r;
      } else {
        InsertedCovers(table + [r], rows[1..], i - 1);
      }
    }
  }

  ghost predicate Fresh<P, R>(table: seq<Keyed<P, R>>, rows: seq<Keyed<P, R>>) {
    && (forall i :: 0 <= i < |rows| ==> !HasKey(table, rows[i].signature, rows[i].innerIxIdx))
    && (forall i, j :: 0 <= i < j < |rows| ==>
          !(rows[i].signature == rows[j].signature && rows[i].innerIxIdx == rows[j].innerIxIdx))
  }

  lemma {:induction false} InsertedFresh<P, R>(table: seq<Keyed<P, R>>, rows: seq<Keyed<P, R>>)
    requires Fresh(table, rows)
    ensures Inserted(table, rows) == rows
    decreases |rows|
  {
    if rows != [] {
      var r := rows[0];
      forall i | 0 <= i < |rows[1..]|
        ensures !HasKey(table + [r], rows[1..][i].signature, rows[1..][i].innerIxIdx)
      {
        assert rows[1..][i] == rows[i + 1];
      }
      InsertedFresh(table + [r], rows[1..]);
    }
  }

  // ----- a replayed block writes nothing -----

  ghost predicate Stored(t: Tables, e: DecodedEvent) {
    && HasKey(t.reserves, e.signature, e.innerIxIdx)
    && (Feeds(e, SwapsTable) ==> HasKey(t.swaps, e.signature, e.innerIxIdx))
    && (Feeds(e, LiquidityTable) ==> HasKey(t.liquidity, e.signature, e.innerIxIdx))
  }

  lemma InsertedCoversWanted<R(!new)>(table: seq<Keyed<Key, R>>, rows: seq<Keyed<Key, R>>,
                                      es: seq<DecodedEvent>, known: set<Key>, k: Table, e: DecodedEvent)
    requires RowsOf(rows, es, known, k) && Wanted(e, es, known, k)
    ensures HasKey(table + Inserted(table, rows), e.signature, e.innerIxIdx)
  {
    var i :| 0 <= i < |rows| && rows[i].signature == e.signature && rows[i].innerIxIdx == e.innerIxIdx;
    InsertedCovers(table, rows, i);
  }

  /** Writing a block stores all its events of then known pools. */
  lemma WriteStores(t: Tables, cache: LpCache, block: BlockBatch, e: DecodedEvent)
    requires e in block.events && e.event.pool in PoolKeys(TablesAfter(t, cache, block).pools)
    ensures Stored(TablesAfter(t, cache, block), e)
  {
    var es := SortEvents(block.events);
    SortMembers(block.events);
    var known := PoolKeys(TablesAfter(t, cache, block).pools);
    var b := NewBatch(t, cache, block);
    Pass2Rows(es, known, cache);
    hide RowsOf, Inserted, SortEvents, Pass2;
    InsertedCoversWanted(t.reserves, b.reserves, es, known, ReservesTable, e);
    if Feeds(e, SwapsTable) {
      InsertedCoversWanted(t.swaps, b.swaps, es, known, SwapsTable, e);
    }
    if Feeds(e, LiquidityTable) {
      InsertedCoversWanted(t.liquidity, b.liquidity, es, known, LiquidityTable, e);
    }
  }

  lemma StoredGrows(t: Tables, u: Tables, e: DecodedEvent)
    requires Stored(t, e)
    requires t.reserves <= u.reserves && t.swaps <= u.swaps && t.liquidity <= u.liquidity
    ensures Stored(u, e)
  {
    HasKeyGrows(t.reserves, u.reserves, e.signature, e.innerIxIdx);
    if Feeds(e, SwapsTable) {
      HasKeyGrows(t.swaps, u.swaps, e.signature, e.innerIxIdx);
    }
    if Feeds(e, LiquidityTable) {
      HasKeyGrows(t.liquidity, u.liquidity, e.signature, e.innerIxIdx);
    }
  }

  lemma {:induction false} CleanStores(blocks: seq<BlockBatch>, c: nat, i: nat, e: DecodedEvent)
    requires i < c <= |blocks| && e in blocks[i].events
    requires e.event.pool in Known(blocks[..i + 1])
    ensures Stored(CleanTables(blocks[..c]), e)
    decreases c
  {
    var before := blocks[..c - 1];
    assert blocks[..c][..c - 1] == before;
    if c == i + 1 {
      WriteStores(CleanTables(before), CleanCache(before), blocks[i], e);
    } else {
      CleanStores(blocks, c - 1, i, e);
      hide Stored;
      StoredGrows(CleanTables(before), CleanTables(blocks[..c]), e);
    }
  }

  /** The rows of t, whatever its checkpoint. */
  predicate SameRows(t: Tables, u: Tables) {
    t.pools == u.pools && t.reserves == u.reserves && t.swaps == u.swaps && t.liquidity == u.liquidity
  }

  const NOTHING := Written([], [], [], [])

  lemma RowsStored<R(!new)>(table: seq<Keyed<Key, R>>, rows: seq<Keyed<Key, R>>,
                            es: seq<DecodedEvent>, known: set<Key>, k: Table)
    requires RowsOf(rows, es, known, k)
    requires forall e :: Wanted(e, es, known, k) ==> HasKey(table, e.signature, e.innerIxIdx)
    ensures Inserted(table, rows) == []
  {
    forall i | 0 <= i < |rows|
      ensures HasKey(table, rows[i].signature, rows[i].innerIxIdx)
    {
      assert HasWanted(rows[i], es, known, k);
      var e :| Wanted(e, es, known, k) && rows[i].signature == e.signature && rows[i].innerIxIdx == e.innerIxIdx;
    }
    InsertedNothing(table, rows);
  }

  /** A block below the high-water mark, written again with any cache, adds no row anywhere. */
  lemma ReplayWritesNothing(blocks: seq<BlockBatch>, c: nat, i: nat, t: Tables, cache: LpCache)
    requires ValidStream(blocks) && i < c <= |blocks| && SameRows(t, CleanTables(blocks[..c]))
    ensures WrittenBy(t, cache, blocks[i]) == NOTHING
    ensures NewBatch(t, cache, blocks[i]) == Pass2(SortEvents(blocks[i].events), Known(blocks[..c]), cache)
  {
    var es := SortEvents(blocks[i].events);
    var known := Known(blocks[..c]);
    SortMembers(blocks[i].events);
    assert PoolKeys(NewPools(es)) <= known by { CreationsKnown(blocks, c, i); }
    InsertedPoolsKeys(t.pools, NewPools(es));
    assert t.pools + [] == t.pools;
    Pass2Rows(es, known, cache);
    forall e | e in es && e.event.pool in known
      ensures Stored(t, e)
    {
      KnownInTime(blocks, c, i, e);
      CleanStores(blocks, c, i, e);
    }
    hide RowsOf, ValidStream, SortEvents, Pass2, Inserted, InsertedPools, Known, NewPools, CleanTables;
    var b := Pass2(es, known, cache);
    assert forall e :: Wanted(e, es, known, ReservesTable) ==> Stored(t, e);
    assert forall e :: Wanted(e, es, known, SwapsTable) ==> Stored(t, e);
    assert forall e :: Wanted(e, es, known, LiquidityTable) ==> Stored(t, e);
    RowsStored(t.reserves, b.reserves, es, known, ReservesTable);
    RowsStored(t.swaps, b.swaps, es, known, SwapsTable);
    RowsStored(t.liquidity, b.liquidity, es, known, LiquidityTable);
  }

  lemma CreationsKnown(blocks: seq<BlockBatch>, c: nat, i: nat)
    requires i < c <= |blocks|
    ensures PoolKeys(NewPools(SortEvents(blocks[i].events))) <= Known(blocks[..c])
  {
    var es := SortEvents(blocks[i].events);
    SortMembers(blocks[i].events);
    forall p | p in PoolKeys(NewPools(es))
      ensures p in Known(blocks[..c])
    {
      NewPoolsCreate(es, p);
      assert Creates(blocks[..c][i].events, p);
      KnownIffCreated(blocks[..c], p);
    }
  }

  // ----- the LP-supply cache -----

  /** The last LP supply the events set for a pool, if any does. */
  function LastSet(es: seq<DecodedEvent>, p: Key): Option<int> {
    if es == [] then None
    else
      var e := es[|es| - 1];
      if e.event.pool == p && !e.event.SwapExecuted? then Some(AsI64(e.event.lpSupplyAfter))
      else LastSet(es[..|es| - 1], p)
  }

  lemma {:induction false} Pass2Cache(es: seq<DecodedEvent>, known: set<Key>, cache: LpCache, p: Key)
    ensures CachedLp(Pass2(es, known, cache).cache, p) ==
              if p in known && LastSet(es, p).Some? then LastSet(es, p).value else CachedLp(cache, p)
    decreases |es|
  {
    if es != [] {
      Pass2Cache(es[..|es| - 1], known, cache, p);
    }
  }

  lemma {:induction false} LastSetHasEvent(es: seq<DecodedEvent>, p: Key) returns (e: DecodedEvent)
    requires LastSet(es, p).Some?
    ensures e in es && e.event.pool == p
    decreases |es|
  {
    e := es[|es| - 1];
    if !(e.event.pool == p && !e.event.SwapExecuted?) {
      e := LastSetHasEvent(es[..|es| - 1], p);
    }
  }

  /** Block i sets the cached supply of p. */
  ghost predicate Sets(blocks: seq<BlockBatch>, i: nat, p: Key)
    requires i < |blocks|
  {
    p in Known(blocks[..i + 1]) && LastSet(SortEvents(blocks[i].events), p).Some?
  }

  ghost predicate Unset(blocks: seq<BlockBatch>, i: nat, c: nat, p: Key)
    requires c <= |blocks|
  {
    forall k :: i <= k < c ==> !Sets(blocks, k, p)
  }

  /** Cached values are right at high-water mark c for every pool that none of the blocks from
      `next` up to c would set again. */
  ghost predicate CacheAgrees(blocks: seq<BlockBatch>, cache: LpCache, next: nat, c: nat)
    requires c <= |blocks|
  {
    forall p :: Unset(blocks, next, c, p) ==> CachedLp(cache, p) == CachedLp(CleanCache(blocks[..c]), p)
  }

  lemma CleanStep(blocks: seq<BlockBatch>, c: nat)
    requires c < |blocks|
    ensures CleanTables(blocks[..c + 1]) == TablesAfter(CleanTables(blocks[..c]), CleanCache(blocks[..c]), blocks[c])
    ensures CleanCache(blocks[..c + 1])
         == Pass2(SortEvents(blocks[c].events), Known(blocks[..c + 1]), CleanCache(blocks[..c])).cache
  {
    assert blocks[..c + 1][..c] == blocks[..c];
  }

  lemma {:induction false} CleanCacheStable(blocks: seq<BlockBatch>, i: nat, c: nat, p: Key)
    requires i <= c <= |blocks| && Unset(blocks, i, c, p)
    ensures CachedLp(CleanCache(blocks[..i]), p) == CachedLp(CleanCache(blocks[..c]), p)
    decreases c
  {
    if i < c {
      CleanCacheStable(blocks, i, c - 1, p);
      CleanStep(blocks, c - 1);
      assert !Sets(blocks, c - 1, p);
      Pass2Cache(SortEvents(blocks[c - 1].events), Known(blocks[..c]), CleanCache(blocks[..c - 1]), p);
    }
  }

  /** Going back in time: a replayed block may put old supplies into the cache, but every one it
      touches is right again by the time the high-water mark is reached. */
  lemma ReplayKeepsCache(blocks: seq<BlockBatch>, c: nat, i: nat, cache: LpCache)
    requires ValidStream(blocks) && i < c <= |blocks| && CacheAgrees(blocks, cache, i, c)
    ensures CacheAgrees(blocks, Pass2(SortEvents(blocks[i].events), Known(blocks[..c]), cache).cache, i + 1, c)
  {
    hide ValidStream, SortEvents, Pass2, Known, CleanCache, Unset, Sets, CachedLp;
    var es := SortEvents(blocks[i].events);
    var after := Pass2(es, Known(blocks[..c]), cache).cache;
    forall p | Unset(blocks, i + 1, c, p)
      ensures CachedLp(after, p) == CachedLp(CleanCache(blocks[..c]), p)
    {
      if Sets(blocks, i, p) {
        ReplaySetsRight(blocks, c, i, cache, p);
      } else {
        ReplayLeavesAlone(blocks, c, i, cache, p);
      }
    }
  }

  /** A pool that the replayed block sets, and no later one does, gets its final supply again. */
  lemma ReplaySetsRight(blocks: seq<BlockBatch>, c: nat, i: nat, cache: LpCache, p: Key)
    requires ValidStream(blocks) && i < c <= |blocks|
    requires Sets(blocks, i, p) && Unset(blocks, i + 1, c, p)
    ensures CachedLp(Pass2(SortEvents(blocks[i].events), Known(blocks[..c]), cache).cache, p)
         == CachedLp(CleanCache(blocks[..c]), p)
  {
    hide ValidStream, SortEvents, Pass2, Known, CleanCache, Unset, CachedLp;
    var es := SortEvents(blocks[i].events);
    ReplayedSets(blocks, c, i, p);
    CleanStep(blocks, i);
    Pass2Cache(es, Known(blocks[..c]), cache, p);
    Pass2Cache(es, Known(blocks[..i + 1]), CleanCache(blocks[..i]), p);
    CleanCacheStable(blocks, i + 1, c, p);
  }

  /** A pool that it does not set keeps what the cache had for it. */
  lemma ReplayLeavesAlone(blocks: seq<BlockBatch>, c: nat, i: nat, cache: LpCache, p: Key)
    requires ValidStream(blocks) && i < c <= |blocks| && CacheAgrees(blocks, cache, i, c)
    requires !Sets(blocks, i, p) && Unset(blocks, i + 1, c, p)
    ensures CachedLp(Pass2(SortEvents(blocks[i].events), Known(blocks[..c]), cache).cache, p)
         == CachedLp(CleanCache(blocks[..c]), p)
  {
    hide ValidStream, SortEvents, Pass2, Known, CleanCache, CachedLp, Sets;
    ReplayedSets(blocks, c, i, p);
    Pass2Cache(SortEvents(blocks[i].events), Known(blocks[..c]), cache, p);
    assert Unset(blocks, i, c, p);
  }

  lemma ReplayedSets(blocks: seq<BlockBatch>, c: nat, i: nat, p: Key)
    requires ValidStream(blocks) && i < c <= |blocks|
    ensures Sets(blocks, i, p) <==> p in Known(blocks[..c]) && LastSet(SortEvents(blocks[i].events), p).Some?
  {
    var es := SortEvents(blocks[i].events);
    if LastSet(es, p).Some? {
      var e := LastSetHasEvent(es, p);
      SortMembers(blocks[i].events);
      KnownInTime(blocks, c, i, e);
    }
  }

  /** A cache with the same values builds the same rows. */
  lemma {:induction false} Pass2SameRows(es: seq<DecodedEvent>, known: set<Key>, a: LpCache, b: LpCache)
    requires forall p :: CachedLp(a, p) == CachedLp(b, p)
    ensures Pass2(es, known, a).reserves == Pass2(es, known, b).reserves
    ensures Pass2(es, known, a).swaps == Pass2(es, known, b).swaps
    ensures Pass2(es, known, a).liquidity == Pass2(es, known, b).liquidity
    ensures forall p :: CachedLp(Pass2(es, known, a).cache, p) == CachedLp(Pass2(es, known, b).cache, p)
    decreases |es|
  {
    if es != [] {
      Pass2SameRows(es[..|es| - 1], known, a, b);
    }
    forall p
      ensures CachedLp(Pass2(es, known, a).cache, p) == CachedLp(Pass2(es, known, b).cache, p)
    {
      Pass2Cache(es, known, a, p);
      Pass2Cache(es, known, b, p);
    }
  }

  // ----- reloading the cache from the tables -----

  ghost predicate SlotsUpTo(rows: seq<Keyed<Key, Reserves>>, slot: int) {
    forall i :: 0 <= i < |rows| ==> rows[i].row.lastSlot <= slot
  }

  lemma LoadedAppend(rows: seq<Keyed<Key, Reserves>>, r: Keyed<Key, Reserves>, p: Key)
    requires SlotsUpTo(rows, r.row.lastSlot)
    ensures LoadedLp(rows + [r], p) == if r.pool == p then r.row.lpSupply else LoadedLp(rows, p)
  {
    assert (rows + [r])[..|rows|] == rows;
  }

  /** While a block of a later slot is built, the last row of every pool carries its cached LP. */
  lemma {:induction false} Pass2Loaded(rows: seq<Keyed<Key, Reserves>>, es: seq<DecodedEvent>, known: set<Key>,
                                       cache: LpCache, slot: int)
    requires SlotsUpTo(rows, slot) && forall e :: e in es ==> e.slot == slot
    requires forall p :: LoadedLp(rows, p) == CachedLp(cache, p)
    ensures SlotsUpTo(rows + Pass2(es, known, cache).reserves, slot)
    ensures forall p :: LoadedLp(rows + Pass2(es, known, cache).reserves, p) == CachedLp(Pass2(es, known, cache).cache, p)
    decreases |es|
  {
    if es == [] {
      assert rows + [] == rows;
    } else {
      var before, e := es[..|es| - 1], es[|es| - 1];
      Pass2Loaded(rows, before, known, cache, slot);
      var b := Pass2(before, known, cache);
      if e.event.pool in known {
        var b' := Process(b, e.event.pool, e);
        var r := b'.reserves[|b.reserves|];
        assert rows + b'.reserves == (rows + b.reserves) + [r];
        forall p
          ensures LoadedLp(rows + b'.reserves, p) == CachedLp(b'.cache, p)
        {
          LoadedAppend(rows + b.reserves, r, p);
        }
      }
    }
  }

  // ----- fresh blocks insert all their rows -----

  ghost predicate FromBlock<R>(r: Keyed<Key, R>, block: BlockBatch) {
    exists e :: e in block.events && r.signature == e.signature && r.innerIxIdx == e.innerIxIdx
  }

  ghost predicate FromStream<R>(r: Keyed<Key, R>, blocks: seq<BlockBatch>) {
    exists i :: 0 <= i < |blocks| && FromBlock(r, blocks[i])
  }

  /** Every stored row has the key of an event of the stream so far. */
  ghost predicate KeysFromStream<R>(rows: seq<Keyed<Key, R>>, blocks: seq<BlockBatch>) {
    forall i :: 0 <= i < |rows| ==> FromStream(rows[i], blocks)
  }

  ghost predicate AllFromStream(t: Tables, blocks: seq<BlockBatch>) {
    KeysFromStream(t.reserves, blocks) && KeysFromStream(t.swaps, blocks) && KeysFromStream(t.liquidity, blocks)
  }

  lemma RowAfterEvents<R(!new)>(rows: seq<Keyed<Key, R>>, es: seq<DecodedEvent>, known: set<Key>, k: Table,
                                e: DecodedEvent, r: Keyed<Key, R>)
    requires Fresh([], rows) && RowsOf(rows, es, known, k) && DistinctKeys(es + [e])
    requires r.signature == e.signature && r.innerIxIdx == e.innerIxIdx
    ensures Fresh([], rows + [r])
  {
    forall i | 0 <= i < |rows|
      ensures !(rows[i].signature == r.signature && rows[i].innerIxIdx == r.innerIxIdx)
    {
      assert HasWanted(rows[i], es, known, k);
      var f :| Wanted(f, es, known, k) && rows[i].signature == f.signature && rows[i].innerIxIdx == f.innerIxIdx;
      var a :| 0 <= a < |es| && es[a] == f;
      assert !SameKey((es + [e])[a], (es + [e])[|es|]);
    }
  }

  ghost predicate BatchFresh(b: Batch<Key>) {
    Fresh([], b.reserves) && Fresh([], b.swaps) && Fresh([], b.liquidity)
  }

  /** The rows of pass 2 are in event order, so distinct events give distinct keys. */
  lemma {:induction false} Pass2Distinct(es: seq<DecodedEvent>, known: set<Key>, cache: LpCache)
    requires DistinctKeys(es)
    ensures BatchFresh(Pass2(es, known, cache))
    decreases |es|
  {
    if es != [] {
      var before, e := es[..|es| - 1], es[|es| - 1];
      assert es == before + [e];
      Pass2Distinct(before, known, cache);
      Pass2Rows(before, known, cache);
      var b := Pass2(before, known, cache);
      hide Fresh, RowsOf, DistinctKeys;
      if e.event.pool in known {
        var p := e.event.pool;
        if e.event.SwapExecuted? {
          RowAfterEvents(b.swaps, before, known, SwapsTable, e, NewSwap(p, e));
          RowAfterEvents(b.reserves, before, known, ReservesTable, e, NewReserves(p, CachedLp(b.cache, p), e));
        } else {
          RowAfterEvents(b.reserves, before, known, ReservesTable, e,
                         NewReserves(p, AsI64(e.event.lpSupplyAfter), e));
          if !e.event.PoolCreated? {
            RowAfterEvents(b.liquidity, before, known, LiquidityTable, e, NewLiquidity(p, e));
          }
        }
      }
    }
  }

  lemma NewKeys<R(!new)>(blocks: seq<BlockBatch>, c: nat, stored: seq<Keyed<Key, R>>, rows: seq<Keyed<Key, R>>,
                         es: seq<DecodedEvent>, known: set<Key>, k: Table)
    requires UniqueKeys(blocks) && c < |blocks|
    requires KeysFromStream(stored, blocks[..c]) && Fresh([], rows)
    requires RowsOf(rows, es, known, k) && forall e :: e in es ==> e in blocks[c].events
    ensures Fresh(stored, rows) && KeysFromStream(stored + rows, blocks[..c + 1])
  {
    forall i | 0 <= i < |rows|
      ensures FromBlock(rows[i], blocks[c]) && !HasKey(stored, rows[i].signature, rows[i].innerIxIdx)
    {
      assert HasWanted(rows[i], es, known, k);
      var f :| Wanted(f, es, known, k) && rows[i].signature == f.signature && rows[i].innerIxIdx == f.innerIxIdx;
      forall j | 0 <= j < |stored|
        ensures !(stored[j].signature == rows[i].signature && stored[j].innerIxIdx == rows[i].innerIxIdx)
      {
        assert FromStream(stored[j], blocks[..c]);
        var m :| 0 <= m < c && FromBlock(stored[j], blocks[..c][m]);
        var e :| e in blocks[m].events && stored[j].signature == e.signature && stored[j].innerIxIdx == e.innerIxIdx;
        assert !SameKey(e, f);
      }
    }
    forall i | 0 <= i < |stored + rows|
      ensures FromStream((stored + rows)[i], blocks[..c + 1])
    {
      if i < |stored| {
        assert FromStream(stored[i], blocks[..c]);
        var m :| 0 <= m < c && FromBlock(stored[i], blocks[..c][m]);
        assert FromBlock((stored + rows)[i], blocks[..c + 1][m]);
      } else {
        assert FromBlock((stored + rows)[i], blocks[..c + 1][c]);
      }
    }
  }

  /** In a clean pass no insert meets a conflict: every row built for a block is new. */
  lemma FreshBlock(blocks: seq<BlockBatch>, c: nat)
    requires ValidStream(blocks) && c < |blocks|
    requires AllFromStream(CleanTables(blocks[..c]), blocks[..c])
    ensures var t := CleanTables(blocks[..c]);
            var b := NewBatch(t, CleanCache(blocks[..c]), blocks[c]);
            var t' := CleanTables(blocks[..c + 1]);
            && Fresh(t.reserves, b.reserves)
            && t'.reserves == t.reserves + b.reserves
            && t'.swaps == t.swaps + b.swaps
            && t'.liquidity == t.liquidity + b.liquidity
            && AllFromStream(t', blocks[..c + 1])
  {
    var es := SortEvents(blocks[c].events);
    var known := Known(blocks[..c + 1]);
    var t, cache := CleanTables(blocks[..c]), CleanCache(blocks[..c]);
    CleanStep(blocks, c);
    SortMembers(blocks[c].events);
    SortDistinct(blocks[c].events);
    Pass2Distinct(es, known, cache);
    Pass2Rows(es, known, cache);
    var b := NewBatch(t, cache, blocks[c]);
    hide SortEvents, Pass2, CleanTables, CleanCache, Known, NewBatch, Fresh, RowsOf, UniqueKeys, KeysFromStream, CreatedFirst;
    NewKeys(blocks, c, t.reserves, b.reserves, es, known, ReservesTable);
    NewKeys(blocks, c, t.swaps, b.swaps, es, known, SwapsTable);
    NewKeys(blocks, c, t.liquidity, b.liquidity, es, known, LiquidityTable);
    InsertedFresh(t.reserves, b.reserves);
    InsertedFresh(t.swaps, b.swaps);
    InsertedFresh(t.liquidity, b.liquidity);
  }

  /** After every block of a clean pass the in-memory supply of each pool is the one that a fresh
      process would load from the tables. */
  lemma {:induction false} CleanLoads(blocks: seq<BlockBatch>, c: nat)
    requires ValidStream(blocks) && c <= |blocks|
    ensures forall p :: LoadedLp(CleanTables(blocks[..c]).reserves, p) == CachedLp(CleanCache(blocks[..c]), p)
    ensures AllFromStream(CleanTables(blocks[..c]), blocks[..c])
    ensures c > 0 ==> SlotsUpTo(CleanTables(blocks[..c]).reserves, blocks[c - 1].slot)
    decreases c
  {
    if c == 0 {
      assert blocks[..0] == [];
    } else {
      CleanLoads(blocks, c - 1);
      var t, cache, block := CleanTables(blocks[..c - 1]), CleanCache(blocks[..c - 1]), blocks[c - 1];
      var es := SortEvents(block.events);
      SortMembers(block.events);
      CleanStep(blocks, c - 1);
      FreshBlock(blocks, c - 1);
      hide SortEvents, AllFromStream, Fresh;
      assert SlotsUpTo(t.reserves, block.slot);
      forall e | e in es
        ensures e.slot == block.slot
      {
        var a :| 0 <= a < |block.events| && block.events[a] == e;
      }
      Pass2Loaded(t.reserves, es, Known(blocks[..c]), cache, block.slot);
    }
  }

  // ----- the process -----

  /** The database, the live process's cache, the next block it will be sent, and all rows that
      `write_block` has ever returned for broadcast. `reached` counts the blocks ever written. */
  datatype Machine = Machine(
    tables: Tables, cache: LpCache, next: nat, returned: Written, reached: nat)

  datatype Action =
    | Deliver               // the next block is written and committed
    | Restart(from: nat)    // the process dies; a new one reloads its cache and resumes
    | Reconnect(from: nat)  // the subscription reconnects; the process keeps its cache

  const START := Machine(EMPTY_TABLES, map[], 0, NOTHING, 0)

  function Appended(a: Written, b: Written): Written {
    Written(a.pools + b.pools, a.reserves + b.reserves, a.swaps + b.swaps, a.liquidity + b.liquidity)
  }

  function Act(blocks: seq<BlockBatch>, m: Machine, a: Action): Machine {
    match a
    case Deliver =>
      if m.next >= |blocks| then m
      else
        var block := blocks[m.next];
        Machine(TablesAfter(m.tables, m.cache, block), CacheAfter(m.tables, m.cache, block), m.next + 1,
                Appended(m.returned, WrittenBy(m.tables, m.cache, block)),
                Max(m.reached, m.next + 1))
    case Restart(from) => m.(cache := LoadLpCache(m.tables.reserves), next := from)
    case Reconnect(from) => m.(next := from)
  }

  /** A new process resumes at a block no later than the checkpoint, a reconnect no later than
      the next block: nothing is passed over. */
  ghost predicate Allowed(blocks: seq<BlockBatch>, m: Machine, a: Action) {
    match a
    case Deliver => true
    case Restart(from) =>
      && from <= |blocks|
      && forall i :: 0 <= i < from ==> m.tables.checkpoint.Some? && blocks[i].slot <= m.tables.checkpoint.value
    case Reconnect(from) => from <= m.next
  }

  function RunActions(blocks: seq<BlockBatch>, m: Machine, actions: seq<Action>): Machine
    decreases |actions|
  {
    if actions == [] then m else RunActions(blocks, Act(blocks, m, actions[0]), actions[1..])
  }

  ghost predicate AllAllowed(blocks: seq<BlockBatch>, m: Machine, actions: seq<Action>)
    decreases |actions|
  {
    actions == [] || (Allowed(blocks, m, actions[0]) && AllAllowed(blocks, Act(blocks, m, actions[0]), actions[1..]))
  }

  ghost predicate Converging(blocks: seq<BlockBatch>, m: Machine) {
    && m.next <= m.reached <= |blocks|
    && SameRows(m.tables, CleanTables(blocks[..m.reached]))
    && (if m.reached == 0 then m.tables.checkpoint == None
        else m.tables.checkpoint.Some? && m.tables.checkpoint.value <= blocks[m.reached - 1].slot)
    && CacheAgrees(blocks, m.cache, m.next, m.reached)
    && m.returned == Written(m.tables.pools, m.tables.reserves, m.tables.swaps, m.tables.liquidity)
  }

  lemma StartConverges(blocks: seq<BlockBatch>)
    ensures Converging(blocks, START)
  {
    assert blocks[..0] == [];
  }

  lemma CacheAgreesEverywhere(blocks: seq<BlockBatch>, cache: LpCache, c: nat)
    requires c <= |blocks| && CacheAgrees(blocks, cache, c, c)
    ensures forall p :: CachedLp(cache, p) == CachedLp(CleanCache(blocks[..c]), p)
  {
    assert forall p :: Unset(blocks, c, c, p);
  }

  /** A block at the high-water mark is written as the clean pass writes it. */
  lemma DeliverFresh(blocks: seq<BlockBatch>, m: Machine)
    requires Converging(blocks, m) && m.next == m.reached < |blocks|
    ensures Converging(blocks, Act(blocks, m, Deliver))
  {
    var c := m.reached;
    var block := blocks[c];
    var es := SortEvents(block.events);
    CacheAgreesEverywhere(blocks, m.cache, c);
    CleanStep(blocks, c);
    Pass2SameRows(es, Known(blocks[..c + 1]), m.cache, CleanCache(blocks[..c]));
    hide SortEvents, Pass2, CleanCache, Known, Inserted, InsertedPools, NewPools;
    assert PoolKeys(m.tables.pools + InsertedPools(m.tables.pools, NewPools(es))) == Known(blocks[..c + 1]) by {
      KnownUnfold(blocks, c);
    }
  }

  lemma KnownUnfold(blocks: seq<BlockBatch>, c: nat)
    requires c < |blocks|
    ensures Known(blocks[..c + 1])
         == PoolKeys(CleanTables(blocks[..c]).pools
                     + InsertedPools(CleanTables(blocks[..c]).pools, NewPools(SortEvents(blocks[c].events))))
  {
    CleanStep(blocks, c);
  }

  /** A block below it changes no row; only the checkpoint and the cache go back in time. */
  lemma DeliverReplayed(blocks: seq<BlockBatch>, m: Machine)
    requires ValidStream(blocks) && Converging(blocks, m) && m.next < m.reached
    ensures Converging(blocks, Act(blocks, m, Deliver))
  {
    assert blocks[m.next].slot <= blocks[m.reached - 1].slot;
    hide ValidStream, CacheAgrees, NewBatch, WrittenBy, Act, TablesAfter, CleanTables;
    ReplayWritesNothing(blocks, m.reached, m.next, m.tables, m.cache);
    ReplayKeepsCache(blocks, m.reached, m.next, m.cache);
    WroteNothing(blocks, m);
  }

  /** A delivery that inserts nothing moves the process and the checkpoint, and no row. */
  lemma WroteNothing(blocks: seq<BlockBatch>, m: Machine)
    requires m.next < |blocks| && WrittenBy(m.tables, m.cache, blocks[m.next]) == NOTHING
    ensures var m' := Act(blocks, m, Deliver);
            && SameRows(m'.tables, m.tables) && m'.tables.checkpoint == Some(blocks[m.next].slot)
            && m'.returned == m.returned && m'.next == m.next + 1 && m'.reached == Max(m.reached, m.next + 1)
            && m'.cache == NewBatch(m.tables, m.cache, blocks[m.next]).cache
  {
    hide NewBatch, WrittenBy;
  }

  /** The block after the furthest one written is past the checkpoint. */
  lemma NothingPassedOver(blocks: seq<BlockBatch>, m: Machine, from: nat)
    requires ValidStream(blocks) && Converging(blocks, m) && Allowed(blocks, m, Restart(from))
    ensures from <= m.reached
  {
    assert m.reached < |blocks| ==> 0 < m.reached ==> blocks[m.reached - 1].slot < blocks[m.reached].slot;
    hide ValidStream, CacheAgrees, SameRows, CleanTables;
    var nextSlot := if m.reached < |blocks| then blocks[m.reached].slot else 0;
  }

  lemma RestartConverges(blocks: seq<BlockBatch>, m: Machine, from: nat)
    requires ValidStream(blocks) && Converging(blocks, m) && Allowed(blocks, m, Restart(from))
    ensures Converging(blocks, Act(blocks, m, Restart(from)))
  {
    NothingPassedOver(blocks, m, from);
    LoadAgrees(blocks, m.tables.reserves, from, m.reached);
    hide ValidStream, CacheAgrees, LoadLpCache, CleanTables;
  }

  /** What a new process loads is right for every pool. */
  lemma LoadAgrees(blocks: seq<BlockBatch>, rows: seq<Keyed<Key, Reserves>>, from: nat, c: nat)
    requires ValidStream(blocks) && c <= |blocks| && rows == CleanTables(blocks[..c]).reserves
    ensures CacheAgrees(blocks, LoadLpCache(rows), from, c)
  {
    hide ValidStream, LoadLpCache, CleanTables, CleanCache, LoadedRow, CachedLp, LoadedLp, AllFromStream, SlotsUpTo, Unset;
    CleanLoads(blocks, c);
    forall p
      ensures CachedLp(LoadLpCache(rows), p) == CachedLp(CleanCache(blocks[..c]), p)
    {
      LoadIsLoaded(rows, p);
    }
  }

  lemma ReconnectConverges(blocks: seq<BlockBatch>, m: Machine, from: nat)
    requires Converging(blocks, m) && from <= m.next
    ensures Converging(blocks, Act(blocks, m, Reconnect(from)))
  {
    assert forall p :: Unset(blocks, from, m.reached, p) ==> Unset(blocks, m.next, m.reached, p);
  }

  /** Replay convergence. Over any stream and any mixture of deliveries, restarts and reconnects
      that passes over no block, the rows are those of one clean pass up to the furthest block
      ever written, every row ever returned as newly inserted was returned once and in table
      order, and the cache is right again whenever the furthest block is reached. */
  lemma {:induction false} Convergence(blocks: seq<BlockBatch>, m: Machine, actions: seq<Action>)
    requires ValidStream(blocks) && Converging(blocks, m) && AllAllowed(blocks, m, actions)
    ensures Converging(blocks, RunActions(blocks, m, actions))
    decreases |actions|
  {
    if actions != [] {
      match actions[0] {
        case Deliver =>
          if m.next < |blocks| {
            if m.next == m.reached {
              DeliverFresh(blocks, m);
            } else {
              DeliverReplayed(blocks, m);
            }
          }
        case Restart(from) => RestartConverges(blocks, m, from);
        case Reconnect(from) => ReconnectConverges(blocks, m, from);
      }
      hide Converging, Act, Allowed, ValidStream;
      Convergence(blocks, Act(blocks, m, actions[0]), actions[1..]);
    }
  }

  lemma CheckpointsSet(blocks: seq<BlockBatch>, m: Machine)
    requires m.next + 1 == |blocks|
    ensures Act(blocks, m, Deliver).tables.checkpoint == Some(blocks[m.next].slot)
    ensures CleanTables(blocks).checkpoint == Some(blocks[m.next].slot)
    ensures Act(blocks, m, Deliver).reached == Max(m.reached, |blocks|)
  {
    hide WrittenBy, CacheAfter, CleanCache;
  }

  /** The delivery of the last block leaves the clean pass's tables, checkpoint included. */
  lemma LastDelivery(blocks: seq<BlockBatch>, m: Machine)
    requires ValidStream(blocks) && Converging(blocks, m) && m.next + 1 == |blocks|
    ensures Act(blocks, m, Deliver).tables == CleanTables(blocks)
  {
    hide ValidStream, CacheAgrees, Act, SameRows, CleanTables, Appended;
    var m' := Act(blocks, m, Deliver);
    if m.next == m.reached {
      DeliverFresh(blocks, m);
    } else {
      DeliverReplayed(blocks, m);
    }
    CheckpointsSet(blocks, m);
    assert blocks[..|blocks|] == blocks;
    SameTables(m'.tables, CleanTables(blocks));
  }

  lemma SameTables(t: Tables, u: Tables)
    requires SameRows(t, u) && t.checkpoint == u.checkpoint
    ensures t == u
  {
  }

  /** From an empty database: the tables of any such run are those of the clean pass over the
      blocks reached, and once a delivery has brought the process to the end of the stream they
      are the clean pass's tables, checkpoint included. */
  lemma ReplayConverges(blocks: seq<BlockBatch>, actions: seq<Action>)
    requires ValidStream(blocks) && AllAllowed(blocks, START, actions)
    ensures var m := RunActions(blocks, START, actions);
            && m.reached <= |blocks|
            && SameRows(m.tables, CleanTables(blocks[..m.reached]))
            && m.returned == Written(m.tables.pools, m.tables.reserves, m.tables.swaps, m.tables.liquidity)
            && (m.next + 1 == |blocks| ==> Act(blocks, m, Deliver).tables == CleanTables(blocks))
  {
    hide ValidStream, AllAllowed, RunActions, Act, SameRows, CacheAgrees, CleanTables;
    StartConverges(blocks);
    Convergence(blocks, START, actions);
    var m := RunActions(blocks, START, actions);
    if m.next + 1 == |blocks| {
      LastDelivery(blocks, m);
    }
  }

  // ----- nothing is broadcast twice -----

  ghost predicate DistinctPools(pools: seq<PoolRow>) {
    forall i, j :: 0 <= i < j < |pools| ==> pools[i].pubkey != pools[j].pubkey
  }

  lemma NewRowDistinct<P, R>(table: seq<Keyed<P, R>>, row: Keyed<P, R>)
    requires Fresh([], table) && !HasKey(table, row.signature, row.innerIxIdx)
    ensures Fresh([], table + [row])
  {
  }

  lemma {:induction false} InsertedDistinct<P, R>(table: seq<Keyed<P, R>>, rows: seq<Keyed<P, R>>)
    requires Fresh([], table)
    ensures Fresh([], table + Inserted(table, rows))
    decreases |rows|
  {
    hide Fresh, HasKey;
    if rows == [] {
      assert table + [] == table;
    } else {
      var r := rows[0];
      if HasKey(table, r.signature, r.innerIxIdx) {
        InsertedDistinct(table, rows[1..]);
      } else {
        NewRowDistinct(table, r);
        InsertedDistinct(table + [r], rows[1..]);
        var rest := Inserted(table + [r], rows[1..]);
        assert Inserted(table, rows) == [r] + rest;
        assert table + ([r] + rest) == (table + [r]) + rest;
      }
    }
  }

  lemma NewPoolDistinct(pools: seq<PoolRow>, row: PoolRow)
    requires DistinctPools(pools) && row.pubkey !in PoolKeys(pools)
    ensures DistinctPools(pools + [row])
  {
    assert forall i :: 0 <= i < |pools| ==> pools[i].pubkey in PoolKeys(pools);
  }

  lemma {:induction false} InsertedPoolsDistinct(pools: seq<PoolRow>, rows: seq<PoolRow>)
    requires DistinctPools(pools)
    ensures DistinctPools(pools + InsertedPools(pools, rows))
    decreases |rows|
  {
    hide DistinctPools, PoolKeys;
    if rows == [] {
      assert pools + [] == pools;
    } else {
      var r := rows[0];
      if r.pubkey in PoolKeys(pools) {
        InsertedPoolsDistinct(pools, rows[1..]);
      } else {
        NewPoolDistinct(pools, r);
        InsertedPoolsDistinct(pools + [r], rows[1..]);
        var rest := InsertedPools(pools + [r], rows[1..]);
        assert InsertedPools(pools, rows) == [r] + rest;
        assert pools + ([r] + rest) == (pools + [r]) + rest;
      }
    }
  }

  ghost predicate NoRowTwice(w: Written) {
    DistinctPools(w.pools) && Fresh([], w.reserves) && Fresh([], w.swaps) && Fresh([], w.liquidity)
  }

  lemma {:induction false} CleanNoRowTwice(blocks: seq<BlockBatch>)
    ensures var t := CleanTables(blocks); NoRowTwice(Written(t.pools, t.reserves, t.swaps, t.liquidity))
    decreases |blocks|
  {
    if blocks != [] {
      var before, block := blocks[..|blocks| - 1], blocks[|blocks| - 1];
      var t, cache := CleanTables(before), CleanCache(before);
      var b := NewBatch(t, cache, block);
      CleanNoRowTwice(before);
      InsertedPoolsDistinct(t.pools, NewPools(SortEvents(block.events)));
      InsertedDistinct(t.reserves, b.reserves);
      InsertedDistinct(t.swaps, b.swaps);
      InsertedDistinct(t.liquidity, b.liquidity);
      hide Fresh, DistinctPools, NewBatch, SortEvents, Inserted, InsertedPools;
    }
  }

  /** Over any such run no row is ever handed to the broadcaster twice: not a pool, and not a row
      of any event, however often its block was delivered. */
  lemma BroadcastOnce(blocks: seq<BlockBatch>, actions: seq<Action>)
    requires ValidStream(blocks) && AllAllowed(blocks, START, actions)
    ensures NoRowTwice(RunActions(blocks, START, actions).returned)
  {
    ReplayConverges(blocks, actions);
    var m := RunActions(blocks, START, actions);
    hide ValidStream, NoRowTwice, CleanTables, RunActions, AllAllowed;
    CleanNoRowTwice(blocks[..m.reached]);
  }
}
