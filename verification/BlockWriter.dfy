/** indexer/src/stream/writer.rs as it runs: tables with serial ids, a pool-id cache and an
    LP-supply cache keyed by id. Each method is proved to do, on the ids, what `Indexer` says on
    the pools' keys, so the convergence results of `Replay` are about this writer. */
module BlockWriter {
  import opened Wrappers
  import opened EventCodec
  import opened Indexer
  import opened Replay

  datatype PoolRecord = PoolRecord(poolId: int, row: PoolRow)

  /** The ids of the pools, by key: two pools never share one. */
  ghost predicate Injective(idOf: map<Key, int>) {
    forall k, l :: k in idOf && l in idOf && idOf[k] == idOf[l] ==> k == l
  }

  /** Rows on ids stand for rows on keys. */
  ghost predicate Represents<R(!new)>(rows: seq<Keyed<int, R>>, named: seq<Keyed<Key, R>>, idOf: map<Key, int>) {
    && |rows| == |named|
    && forall i :: 0 <= i < |rows| ==> RowRepresents(rows[i], named[i], idOf)
  }

  ghost predicate RowRepresents<R>(r: Keyed<int, R>, n: Keyed<Key, R>, idOf: map<Key, int>) {
    n.pool in idOf && r == Keyed(n.signature, n.innerIxIdx, idOf[n.pool], n.row)
  }

  ghost predicate CacheRepresents(cache: map<int, int>, named: LpCache, idOf: map<Key, int>) {
    && (forall k :: k in idOf ==> CachedLp(cache, idOf[k]) == CachedLp(named, k))
    && (forall k :: k !in idOf ==> CachedLp(named, k) == 0)
  }

  ghost predicate BatchRepresents(b: Batch<int>, n: Batch<Key>, idOf: map<Key, int>) {
    && CacheRepresents(b.cache, n.cache, idOf)
    && Represents(b.reserves, n.reserves, idOf)
    && Represents(b.swaps, n.swaps, idOf)
    && Represents(b.liquidity, n.liquidity, idOf)
  }

  lemma RepresentsAppend<R(!new)>(rows: seq<Keyed<int, R>>, named: seq<Keyed<Key, R>>, idOf: map<Key, int>,
                                  r: Keyed<int, R>, n: Keyed<Key, R>)
    requires Represents(rows, named, idOf) && RowRepresents(r, n, idOf)
    ensures Represents(rows + [r], named + [n], idOf)
  {
  }

  lemma RepresentsConcat<R(!new)>(a: seq<Keyed<int, R>>, m: seq<Keyed<Key, R>>,
                                  b: seq<Keyed<int, R>>, n: seq<Keyed<Key, R>>, idOf: map<Key, int>)
    requires Represents(a, m, idOf) && Represents(b, n, idOf)
    ensures Represents(a + b, m + n, idOf)
  {
  }

  lemma RepresentsGrows<R(!new)>(rows: seq<Keyed<int, R>>, named: seq<Keyed<Key, R>>,
                                 idOf: map<Key, int>, more: map<Key, int>)
    requires Represents(rows, named, idOf)
    requires forall k :: k in idOf ==> k in more && more[k] == idOf[k]
    ensures Represents(rows, named, more)
  {
    forall i | 0 <= i < |rows|
      ensures RowRepresents(rows[i], named[i], more)
    {
      assert RowRepresents(rows[i], named[i], idOf);
    }
  }

  /** The conflict target does not mention the pool, so inserts agree. */
  lemma {:induction false} InsertedRepresents<R(!new)>(table: seq<Keyed<int, R>>, namedTable: seq<Keyed<Key, R>>,
                                                       rows: seq<Keyed<int, R>>, named: seq<Keyed<Key, R>>,
                                                       idOf: map<Key, int>)
    requires Represents(table, namedTable, idOf) && Represents(rows, named, idOf)
    ensures Represents(Inserted(table, rows), Inserted(namedTable, named), idOf)
    decreases |rows|
  {
    if rows != [] {
      assert RowRepresents(rows[0], named[0], idOf);
      SameConflicts(table, namedTable, idOf, rows[0].signature, rows[0].innerIxIdx);
      assert Represents(rows[1..], named[1..], idOf);
      if HasKey(table, rows[0].signature, rows[0].innerIxIdx) {
        InsertedRepresents(table, namedTable, rows[1..], named[1..], idOf);
      } else {
        RepresentsAppend(table, namedTable, idOf, rows[0], named[0]);
        InsertedRepresents(table + [rows[0]], namedTable + [named[0]], rows[1..], named[1..], idOf);
        RepresentsConcat([rows[0]], [named[0]], Inserted(table + [rows[0]], rows[1..]),
                         Inserted(namedTable + [named[0]], named[1..]), idOf);
      }
    }
  }

  lemma SameConflicts<R(!new)>(table: seq<Keyed<int, R>>, named: seq<Keyed<Key, R>>, idOf: map<Key, int>,
                               s: string, i: int)
    requires Represents(table, named, idOf)
    ensures HasKey(table, s, i) <==> HasKey(named, s, i)
  {
    if HasKey(table, s, i) {
      var j :| 0 <= j < |table| && table[j].signature == s && table[j].innerIxIdx == i;
      assert RowRepresents(table[j], named[j], idOf);
    }
    if HasKey(named, s, i) {
      var j :| 0 <= j < |named| && named[j].signature == s && named[j].innerIxIdx == i;
      assert RowRepresents(table[j], named[j], idOf);
    }
  }

  lemma CacheSet(cache: map<int, int>, named: LpCache, idOf: map<Key, int>, p: Key, lp: int)
    requires CacheRepresents(cache, named, idOf) && Injective(idOf) && p in idOf
    ensures CacheRepresents(cache[idOf[p] := lp], named[p := lp], idOf)
  {
  }

  /** One event of a known pool, on its id and on its key. */
  lemma ProcessRepresents(b: Batch<int>, n: Batch<Key>, idOf: map<Key, int>, de: DecodedEvent)
    requires BatchRepresents(b, n, idOf) && Injective(idOf) && de.event.pool in idOf
    ensures BatchRepresents(Process(b, idOf[de.event.pool], de), Process(n, de.event.pool, de), idOf)
  {
    var p := de.event.pool;
    var id := idOf[p];
    hide Represents, Injective, CacheRepresents;
    assert CachedLp(b.cache, id) == CachedLp(n.cache, p) by { CachedAgrees(b.cache, n.cache, idOf, p); }
    if de.event.SwapExecuted? {
      var lp := CachedLp(n.cache, p);
      RepresentsAppend(b.swaps, n.swaps, idOf, NewSwap(id, de), NewSwap(p, de));
      RepresentsAppend(b.reserves, n.reserves, idOf, NewReserves(id, lp, de), NewReserves(p, lp, de));
    } else {
      var lp := AsI64(de.event.lpSupplyAfter);
      CacheSet(b.cache, n.cache, idOf, p, lp);
      RepresentsAppend(b.reserves, n.reserves, idOf, NewReserves(id, lp, de), NewReserves(p, lp, de));
      if !de.event.PoolCreated? {
        RepresentsAppend(b.liquidity, n.liquidity, idOf, NewLiquidity(id, de), NewLiquidity(p, de));
      }
    }
  }

  lemma CachedAgrees(cache: map<int, int>, named: LpCache, idOf: map<Key, int>, p: Key)
    requires CacheRepresents(cache, named, idOf) && p in idOf
    ensures CachedLp(cache, idOf[p]) == CachedLp(named, p)
  {
  }

  // ----- reloading -----

  lemma {:induction false} LoadedRepresents(rows: seq<Keyed<int, Reserves>>, named: seq<Keyed<Key, Reserves>>,
                                            idOf: map<Key, int>, p: Key)
    requires Represents(rows, named, idOf) && Injective(idOf) && p in idOf
    ensures LoadedRow(rows, idOf[p]).Some? <==> LoadedRow(named, p).Some?
    ensures LoadedRow(named, p).Some? ==>
              RowRepresents(LoadedRow(rows, idOf[p]).value, LoadedRow(named, p).value, idOf)
    decreases |rows|
  {
    if rows != [] {
      var n := |rows| - 1;
      assert RowRepresents(rows[n], named[n], idOf);
      assert Represents(rows[..n], named[..n], idOf) by {
        forall i | 0 <= i < n
          ensures RowRepresents(rows[..n][i], named[..n][i], idOf)
        {
          assert RowRepresents(rows[i], named[i], idOf);
        }
      }
      LoadedRepresents(rows[..n], named[..n], idOf, p);
      assert rows[n].pool == idOf[p] <==> named[n].pool == p;
    }
  }

  lemma LoadedPoolHasId(rows: seq<Keyed<int, Reserves>>, named: seq<Keyed<Key, Reserves>>,
                        idOf: map<Key, int>, p: Key)
    requires Represents(rows, named, idOf) && LoadedRow(named, p).Some?
    ensures p in idOf
  {
    var i :| 0 <= i < |named| && named[i] == LoadedRow(named, p).value;
    assert RowRepresents(rows[i], named[i], idOf);
  }

  lemma LoadRepresents(rows: seq<Keyed<int, Reserves>>, named: seq<Keyed<Key, Reserves>>, idOf: map<Key, int>)
    requires Represents(rows, named, idOf) && Injective(idOf)
    ensures CacheRepresents(LoadLpCache(rows), LoadLpCache(named), idOf)
  {
    forall k | k in idOf
      ensures CachedLp(LoadLpCache(rows), idOf[k]) == CachedLp(LoadLpCache(named), k)
    {
      LoadedRepresents(rows, named, idOf, k);
      LoadIsLoaded(rows, idOf[k]);
      LoadIsLoaded(named, k);
    }
    forall k | k !in idOf
      ensures CachedLp(LoadLpCache(named), k) == 0
    {
      LoadIsLoaded(named, k);
      if LoadedRow(named, k).Some? {
        LoadedPoolHasId(rows, named, idOf, k);
      }
    }
  }

  // ----- the statements write_block sends -----

  /** INSERT ... ON CONFLICT (signature, inner_ix_idx) DO NOTHING RETURNING *. */
  method InsertRows<R(!new)>(table: seq<Keyed<int, R>>, rows: seq<Keyed<int, R>>)
    returns (table': seq<Keyed<int, R>>, added: seq<Keyed<int, R>>)
    ensures added == Inserted(table, rows) && table' == table + added
  {
    table', added := table, [];
    for i := 0 to |rows|
      invariant table' == table + added
      invariant Inserted(table, rows) == added + Inserted(table', rows[i..])
    {
      assert rows[i..][0] == rows[i] && rows[i..][1..] == rows[i + 1..];
      if !HasKey(table', rows[i].signature, rows[i].innerIxIdx) {
        table', added := table' + [rows[i]], added + [rows[i]];
      }
    }
    assert rows[|rows|..] == [];
  }

  /** The rows of new pools, in processing order. */
  method CollectNewPools(events: seq<DecodedEvent>) returns (rows: seq<PoolRow>)
    ensures rows == NewPools(events)
  {
    rows := [];
    for i := 0 to |events|
      invariant NewPools(events) == rows + NewPools(events[i..])
    {
      assert events[i..][0] == events[i] && events[i..][1..] == events[i + 1..];
      if events[i].event.PoolCreated? {
        rows := rows + [NewPool(events[i])];
      }
    }
    assert events[|events|..] == [];
  }

  ghost predicate PoolsMatch(pools: seq<PoolRecord>, rows: seq<PoolRow>, idOf: map<Key, int>) {
    && |pools| == |rows|
    && (forall i :: 0 <= i < |pools| ==>
          pools[i].row == rows[i] && rows[i].pubkey in idOf && pools[i].poolId == idOf[rows[i].pubkey])
    && idOf.Keys == PoolKeys(rows)
  }

  predicate HasPubkey(pools: seq<PoolRecord>, k: Key) {
    exists i :: 0 <= i < |pools| && pools[i].row.pubkey == k
  }

  lemma PubkeysMatch(pools: seq<PoolRecord>, rows: seq<PoolRow>, idOf: map<Key, int>, k: Key)
    requires PoolsMatch(pools, rows, idOf)
    ensures HasPubkey(pools, k) <==> k in idOf
  {
    if HasPubkey(pools, k) {
      var i :| 0 <= i < |pools| && pools[i].row.pubkey == k;
      assert rows[i].pubkey == k;
    }
    if k in idOf {
      assert k in PoolKeys(rows);
      var i :| 0 <= i < |rows| && rows[i].pubkey == k;
      assert pools[i].row.pubkey == k;
    }
  }

  ghost predicate Extends(more: map<Key, int>, idOf: map<Key, int>) {
    forall k :: k in idOf ==> k in more && more[k] == idOf[k]
  }

  /** Ids that idOf did not have start at `next`. */
  ghost predicate NewFrom(more: map<Key, int>, idOf: map<Key, int>, next: int) {
    forall k :: k in more && k !in idOf ==> more[k] >= next
  }

  /** Every id in the LP cache is one that has been handed out. */
  ghost predicate CacheBelow(cache: map<int, int>, next: int) {
    forall id :: id in cache ==> id < next
  }

  ghost predicate Below(idOf: map<Key, int>, next: int) {
    forall k :: k in idOf ==> idOf[k] < next
  }

  /** A pool with a key not seen before takes the next id. */
  lemma NewPoolMatches(pools: seq<PoolRecord>, rows: seq<PoolRow>, idOf: map<Key, int>, row: PoolRow, id: int)
    requires PoolsMatch(pools, rows, idOf) && Injective(idOf) && Below(idOf, id) && row.pubkey !in idOf
    ensures PoolsMatch(pools + [PoolRecord(id, row)], rows + [row], idOf[row.pubkey := id])
    ensures Injective(idOf[row.pubkey := id]) && Below(idOf[row.pubkey := id], id + 1)
    ensures Extends(idOf[row.pubkey := id], idOf)
  {
    var more := idOf[row.pubkey := id];
    assert PoolKeys(rows + [row]) == PoolKeys(rows) + {row.pubkey} by {
      assert forall i :: 0 <= i < |rows| ==> (rows + [row])[i] == rows[i];
      assert (rows + [row])[|rows|] == row;
      forall k | k in PoolKeys(rows)
        ensures k in PoolKeys(rows + [row])
      {
        var i :| 0 <= i < |rows| && rows[i].pubkey == k;
        assert (rows + [row])[i].pubkey == k;
      }
    }
    assert more.Keys == idOf.Keys + {row.pubkey};
  }

  /** The inserted records carry the rows and the ids they were given. */
  ghost predicate AddedMatch(added: seq<PoolRecord>, rows: seq<PoolRow>, idOf: map<Key, int>) {
    && |added| == |rows|
    && forall i :: 0 <= i < |added| ==>
         added[i].row == rows[i] && rows[i].pubkey in idOf && added[i].poolId == idOf[rows[i].pubkey]
  }

  /** What inserting pools keeps true of the table, the id sequence and the inserted records. */
  ghost predicate PoolsInserted(pools: seq<PoolRecord>, next: int, idOf: map<Key, int>, added: seq<PoolRecord>,
                                pools0: seq<PoolRecord>, next0: int, idOf0: map<Key, int>,
                                named0: seq<PoolRow>, sofar: seq<PoolRow>) {
    && PoolsMatch(pools, named0 + sofar, idOf) && Injective(idOf) && Below(idOf, next)
    && Extends(idOf, idOf0) && next0 <= next && NewFrom(idOf, idOf0, next0)
    && pools == pools0 + added && AddedMatch(added, sofar, idOf)
  }

  lemma PoolInsertedNext(pools: seq<PoolRecord>, next: int, idOf: map<Key, int>, added: seq<PoolRecord>,
                         pools0: seq<PoolRecord>, next0: int, idOf0: map<Key, int>,
                         named0: seq<PoolRow>, sofar: seq<PoolRow>, row: PoolRow)
    requires PoolsInserted(pools, next, idOf, added, pools0, next0, idOf0, named0, sofar)
    requires row.pubkey !in idOf
    ensures var r := PoolRecord(next, row);
            PoolsInserted(pools + [r], next + 1, idOf[row.pubkey := next], added + [r],
                          pools0, next0, idOf0, named0, sofar + [row])
  {
    NewPoolMatches(pools, named0 + sofar, idOf, row, next);
    assert named0 + (sofar + [row]) == named0 + sofar + [row];
    assert pools0 + (added + [PoolRecord(next, row)]) == pools + [PoolRecord(next, row)];
    hide PoolsMatch, Injective, Below;
  }

  lemma PoolConflict(pools: seq<PoolRecord>, next: int, idOf: map<Key, int>, added: seq<PoolRecord>,
                     pools0: seq<PoolRecord>, next0: int, idOf0: map<Key, int>,
                     named0: seq<PoolRow>, sofar: seq<PoolRow>, k: Key)
    requires PoolsInserted(pools, next, idOf, added, pools0, next0, idOf0, named0, sofar)
    ensures HasPubkey(pools, k) <==> k in PoolKeys(named0 + sofar)
    ensures HasPubkey(pools, k) <==> k in idOf
    ensures PoolsInserted(pools, next + 1, idOf, added, pools0, next0, idOf0, named0, sofar)
  {
    PubkeysMatch(pools, named0 + sofar, idOf, k);
  }

  lemma NoPoolInserted(pools: seq<PoolRecord>, next: int, idOf: map<Key, int>, named: seq<PoolRow>)
    requires PoolsMatch(pools, named, idOf) && Injective(idOf) && Below(idOf, next)
    ensures PoolsInserted(pools, next, idOf, [], pools, next, idOf, named, [])
  {
    assert named + [] == named;
  }

  lemma InsertedPoolsNext(named: seq<PoolRow>, sofar: seq<PoolRow>, row: PoolRow, rest: seq<PoolRow>)
    ensures sofar + InsertedPools(named + sofar, [row] + rest) ==
              if row.pubkey in PoolKeys(named + sofar) then sofar + InsertedPools(named + sofar, rest)
              else (sofar + [row]) + InsertedPools(named + (sofar + [row]), rest)
  {
    hide PoolKeys;
    assert ([row] + rest)[1..] == rest;
    var more := InsertedPools(named + sofar + [row], rest);
    assert named + (sofar + [row]) == named + sofar + [row];
    assert sofar + ([row] + more) == (sofar + [row]) + more;
  }

  /** INSERT INTO pools ... ON CONFLICT (pubkey) DO NOTHING RETURNING *. The id sequence moves on
      for rows that conflict as well, so ids have gaps after a replay. */
  method InsertPools(pools: seq<PoolRecord>, nextPoolId: int, rows: seq<PoolRow>,
                     ghost named: seq<PoolRow>, ghost idOf: map<Key, int>)
    returns (pools': seq<PoolRecord>, nextPoolId': int, added: seq<PoolRecord>, ghost idOf': map<Key, int>)
    requires PoolsMatch(pools, named, idOf) && Injective(idOf) && Below(idOf, nextPoolId)
    ensures PoolsInserted(pools', nextPoolId', idOf', added, pools, nextPoolId, idOf, named, InsertedPools(named, rows))
    ensures pools' == pools + added && nextPoolId' == nextPoolId + |rows|
  {
    hide PoolsInserted, PoolsMatch, Injective, Below, InsertedPools, PoolKeys, HasPubkey;
    pools', nextPoolId', added, idOf' := pools, nextPoolId, [], idOf;
    ghost var sofar: seq<PoolRow> := [];
    NoPoolInserted(pools, nextPoolId, idOf, named);
    NothingLeft(named, [], rows);
    for i := 0 to |rows|
      invariant PoolsInserted(pools', nextPoolId', idOf', added, pools, nextPoolId, idOf, named, sofar)
      invariant pools' == pools + added && nextPoolId' == nextPoolId + i
      invariant InsertedPools(named, rows) == sofar + InsertedPools(named + sofar, rows[i..])
    {
      var row := rows[i];
      assert rows[i..] == [row] + rows[i + 1..];
      InsertedPoolsNext(named, sofar, row, rows[i + 1..]);
      PoolConflict(pools', nextPoolId', idOf', added, pools, nextPoolId, idOf, named, sofar, row.pubkey);
      if !HasPubkey(pools', row.pubkey) {
        PoolInsertedNext(pools', nextPoolId', idOf', added, pools, nextPoolId, idOf, named, sofar, row);
        pools' := pools' + [PoolRecord(nextPoolId', row)];
        added := added + [PoolRecord(nextPoolId', row)];
        idOf' := idOf'[row.pubkey := nextPoolId'];
        sofar := sofar + [row];
      }
      nextPoolId' := nextPoolId' + 1;
    }
    NothingLeft(named, sofar, rows);
  }

  lemma NothingLeft(named: seq<PoolRow>, sofar: seq<PoolRow>, rows: seq<PoolRow>)
    ensures sofar + InsertedPools(named + sofar, rows[|rows|..]) == sofar
    ensures [] + InsertedPools(named + [], rows[0..]) == InsertedPools(named, rows)
  {
    assert rows[|rows|..] == [] && rows[0..] == rows && named + [] == named;
  }

  lemma MatchKeys(pools: seq<PoolRecord>, rows: seq<PoolRow>, idOf: map<Key, int>)
    requires PoolsMatch(pools, rows, idOf)
    ensures PoolKeys(rows) == idOf.Keys
  {
  }

  /** Looks up every pool of the block that the cache does not know. */
  method FillPoolCache(cache: map<Key, int>, pools: seq<PoolRecord>, events: seq<DecodedEvent>,
                       ghost named: seq<PoolRow>, ghost idOf: map<Key, int>)
    returns (filled: map<Key, int>)
    requires PoolsMatch(pools, named, idOf) && Extends(idOf, cache)
    ensures Extends(idOf, filled)
    ensures forall e :: e in events ==> (e.event.pool in filled <==> e.event.pool in idOf)
  {
    var needed: set<Key> := {};
    for i := 0 to |events|
      invariant forall j :: 0 <= j < i ==> events[j].event.pool in cache || events[j].event.pool in needed
    {
      if events[i].event.pool !in cache {
        needed := needed + {events[i].event.pool};
      }
    }
    filled := cache;
    for i := 0 to |pools|
      invariant Extends(idOf, filled)
      invariant forall k :: k in cache ==> k in filled
      invariant forall j :: 0 <= j < i && pools[j].row.pubkey in needed ==> pools[j].row.pubkey in filled
    {
      if pools[i].row.pubkey in needed {
        filled := filled[pools[i].row.pubkey := pools[i].poolId];
      }
    }
    forall e | e in events
      ensures e.event.pool in filled <==> e.event.pool in idOf
    {
      PubkeysMatch(pools, named, idOf, e.event.pool);
    }
  }

  /** Pass 2 on ids. */
  method BuildBatch(events: seq<DecodedEvent>, poolCache: map<Key, int>, lpSupplyCache: map<int, int>,
                    ghost cache: LpCache, ghost idOf: map<Key, int>, ghost next: int)
    returns (b: Batch<int>)
    requires Below(idOf, next) && CacheBelow(lpSupplyCache, next)
    requires Injective(idOf) && CacheRepresents(lpSupplyCache, cache, idOf) && Extends(idOf, poolCache)
    requires forall e :: e in events ==> (e.event.pool in poolCache <==> e.event.pool in idOf)
    ensures BatchRepresents(b, Pass2(events, idOf.Keys, cache), idOf)
    ensures CacheBelow(b.cache, next)
  {
    hide Injective, CacheRepresents, Represents;
    b := Batch(lpSupplyCache, [], [], []);
    EmptyRepresents(idOf);
    for i := 0 to |events|
      invariant BatchRepresents(b, Pass2(events[..i], idOf.Keys, cache), idOf)
      invariant CacheBelow(b.cache, next)
    {
      var de := events[i];
      assert de in events;
      assert events[..i + 1][..i] == events[..i];
      if de.event.pool in poolCache {
        ProcessRepresents(b, Pass2(events[..i], idOf.Keys, cache), idOf, de);
        b := Process(b, poolCache[de.event.pool], de);
      }
    }
    assert events[..|events|] == events;
  }

  lemma EmptyRepresents(idOf: map<Key, int>)
    ensures Represents<Reserves>([], [], idOf) && Represents<Swap>([], [], idOf) && Represents<Liquidity>([], [], idOf)
  {
  }

  /** The pool-id cache of a new process. */
  method LoadPoolCache(pools: seq<PoolRecord>, ghost named: seq<PoolRow>, ghost idOf: map<Key, int>)
    returns (loaded: map<Key, int>)
    requires PoolsMatch(pools, named, idOf)
    ensures Extends(idOf, loaded) && loaded.Keys == idOf.Keys
  {
    loaded := map[];
    for i := 0 to |pools|
      invariant Extends(idOf, loaded)
      invariant forall j :: 0 <= j < i ==> pools[j].row.pubkey in loaded
    {
      loaded := loaded[pools[i].row.pubkey := pools[i].poolId];
    }
    forall k | k in idOf
      ensures k in loaded
    {
      PubkeysMatch(pools, named, idOf, k);
    }
  }

  /** New pools have no cached supply yet, under either name. */
  lemma CacheRepresentsMore(cache: map<int, int>, named: LpCache, idOf: map<Key, int>, more: map<Key, int>, next: int)
    requires CacheRepresents(cache, named, idOf) && CacheBelow(cache, next)
    requires Extends(more, idOf) && NewFrom(more, idOf, next)
    ensures CacheRepresents(cache, named, more)
  {
  }

  lemma LoadedBelow(rows: seq<Keyed<int, Reserves>>, named: seq<Keyed<Key, Reserves>>, idOf: map<Key, int>, next: int)
    requires Represents(rows, named, idOf) && Below(idOf, next)
    ensures CacheBelow(LoadLpCache(rows), next)
  {
    forall id | id in LoadLpCache(rows)
      ensures id < next
    {
      var i :| 0 <= i < |rows| && rows[i].pool == id;
      assert RowRepresents(rows[i], named[i], idOf);
    }
  }

  /** `for r in &inserted_pools { pool_cache.insert(..) }` */
  method CacheNewPools(cache: map<Key, int>, added: seq<PoolRecord>, ghost rows: seq<PoolRow>, ghost idOf: map<Key, int>)
    returns (cached: map<Key, int>)
    requires Extends(idOf, cache)
    requires AddedMatch(added, rows, idOf)
    ensures Extends(idOf, cached)
  {
    cached := cache;
    for i := 0 to |added|
      invariant Extends(idOf, cached)
    {
      cached := cached[added[i].row.pubkey := added[i].poolId];
    }
  }

  /** Pass 1: inserts the block's pools and makes the cache know every pool of the block that the
      table has. */
  method ResolvePools(pools: seq<PoolRecord>, nextPoolId: int, poolCache: map<Key, int>, events: seq<DecodedEvent>,
                      ghost named: seq<PoolRow>, ghost idOf: map<Key, int>)
    returns (allPools: seq<PoolRecord>, nextId: int, added: seq<PoolRecord>, known: map<Key, int>, ghost ids: map<Key, int>)
    requires PoolsMatch(pools, named, idOf) && Injective(idOf) && Below(idOf, nextPoolId) && Extends(idOf, poolCache)
    ensures var all := named + InsertedPools(named, NewPools(events));
            PoolsMatch(allPools, all, ids) && PoolKeys(all) == ids.Keys
    ensures Injective(ids) && Below(ids, nextId) && nextPoolId <= nextId
    ensures Extends(ids, idOf) && NewFrom(ids, idOf, nextPoolId)
    ensures AddedMatch(added, InsertedPools(named, NewPools(events)), ids)
    ensures Extends(ids, known)
    ensures forall e :: e in events ==> (e.event.pool in known <==> e.event.pool in ids)
  {
    hide Injective, PoolsMatch, Below, NewFrom, Extends, AddedMatch, InsertedPools, NewPools, PoolKeys;
    var rows := CollectNewPools(events);
    allPools, nextId, added, ids := InsertPools(pools, nextPoolId, rows, named, idOf);
    ghost var inserted := InsertedPools(named, rows);
    assert PoolsInserted(allPools, nextId, ids, added, pools, nextPoolId, idOf, named, inserted);
    MatchKeys(allPools, named + inserted, ids);
    ExtendsTransitive(ids, idOf, poolCache);
    known := CacheNewPools(poolCache, added, inserted, ids);
    known := FillPoolCache(known, allPools, events, named + inserted, ids);
  }

  lemma ExtendsTransitive(a: map<Key, int>, b: map<Key, int>, c: map<Key, int>)
    requires Extends(a, b) && Extends(b, c)
    ensures Extends(a, c)
  {
  }

  /** One table's insert, on ids and on keys. */
  method StoreRows<R(!new)>(table: seq<Keyed<int, R>>, rows: seq<Keyed<int, R>>,
                            ghost namedTable: seq<Keyed<Key, R>>, ghost named: seq<Keyed<Key, R>>,
                            ghost idOf: map<Key, int>, ghost more: map<Key, int>)
    returns (table': seq<Keyed<int, R>>, added: seq<Keyed<int, R>>)
    requires Represents(table, namedTable, idOf) && Extends(more, idOf) && Represents(rows, named, more)
    ensures added == Inserted(table, rows) && table' == table + added
    ensures Represents(added, Inserted(namedTable, named), more)
    ensures Represents(table', namedTable + Inserted(namedTable, named), more)
  {
    StoreRepresents(table, namedTable, rows, named, idOf, more);
    table', added := InsertRows(table, rows);
  }

  /** One life of the process, as actions of `Replay`: reload, then write the blocks at these
      positions as they are received. One that does not follow the last is a reconnect. */
  function Life(from: nat, received: seq<nat>): seq<Action> {
    if received == [] then [Restart(from)]
    else Life(from, received[..|received| - 1]) + [Reconnect(received[|received| - 1]), Deliver]
  }

  lemma {:induction false} RunActionsAppend(blocks: seq<BlockBatch>, m: Machine, actions: seq<Action>, a: Action)
    ensures RunActions(blocks, m, actions + [a]) == Act(blocks, RunActions(blocks, m, actions), a)
    decreases |actions|
  {
    if actions == [] {
      assert [a][1..] == [];
    } else {
      assert (actions + [a])[1..] == actions[1..] + [a];
      RunActionsAppend(blocks, Act(blocks, m, actions[0]), actions[1..], a);
    }
  }

  /** What the machine does in one life: reload, and then one delivery after another. */
  lemma LifeStart(blocks: seq<BlockBatch>, m: Machine, from: nat)
    ensures RunActions(blocks, m, Life(from, [])) == m.(cache := LoadLpCache(m.tables.reserves), next := from)
  {
    RunActionsAppend(blocks, m, [], Restart(from));
  }

  lemma LifeNext(blocks: seq<BlockBatch>, m: Machine, from: nat, received: seq<nat>, i: nat)
    requires i < |blocks|
    ensures var before := RunActions(blocks, m, Life(from, received));
            var after := RunActions(blocks, m, Life(from, received + [i]));
            && after.tables == TablesAfter(before.tables, before.cache, blocks[i])
            && after.cache == CacheAfter(before.tables, before.cache, blocks[i])
            && after.returned == Appended(before.returned, WrittenBy(before.tables, before.cache, blocks[i]))
  {
    assert (received + [i])[..|received|] == received;
    var life := Life(from, received);
    RunActionsAppend(blocks, m, life, Reconnect(i));
    RunActionsAppend(blocks, m, life + [Reconnect(i)], Deliver);
    assert life + [Reconnect(i)] + [Deliver] == Life(from, received + [i]);
    hide RunActions, Life, TablesAfter, CacheAfter, WrittenBy, Appended;
  }

  /** The rows that were newly inserted. */
  datatype WrittenBlock = WrittenBlock(
    pools: seq<PoolRecord>,
    reserves: seq<Keyed<int, Reserves>>,
    swaps: seq<Keyed<int, Swap>>,
    liquidity: seq<Keyed<int, Liquidity>>)

  const NO_ROWS := WrittenBlock([], [], [], [])

  function Joined(a: WrittenBlock, b: WrittenBlock): WrittenBlock {
    WrittenBlock(a.pools + b.pools, a.reserves + b.reserves, a.swaps + b.swaps, a.liquidity + b.liquidity)
  }

  /** The inserted rows on ids stand for these rows on keys. */
  ghost predicate StandsFor(b: WrittenBlock, w: Written, idOf: map<Key, int>) {
    && AddedMatch(b.pools, w.pools, idOf)
    && Represents(b.reserves, w.reserves, idOf)
    && Represents(b.swaps, w.swaps, idOf)
    && Represents(b.liquidity, w.liquidity, idOf)
  }

  lemma AddedMatchGrows(added: seq<PoolRecord>, rows: seq<PoolRow>, idOf: map<Key, int>, more: map<Key, int>)
    requires AddedMatch(added, rows, idOf) && Extends(more, idOf)
    ensures AddedMatch(added, rows, more)
  {
  }

  lemma AddedMatchConcat(a: seq<PoolRecord>, m: seq<PoolRow>, b: seq<PoolRecord>, n: seq<PoolRow>, idOf: map<Key, int>)
    requires AddedMatch(a, m, idOf) && AddedMatch(b, n, idOf)
    ensures AddedMatch(a + b, m + n, idOf)
  {
  }

  /** What was sent so far, and then the rows of one more block under more ids. */
  lemma StandsForNext(a: WrittenBlock, v: Written, idOf: map<Key, int>,
                      b: WrittenBlock, w: Written, more: map<Key, int>)
    requires StandsFor(a, v, idOf) && Extends(more, idOf) && StandsFor(b, w, more)
    ensures StandsFor(Joined(a, b), Appended(v, w), more)
  {
    AddedMatchGrows(a.pools, v.pools, idOf, more);
    AddedMatchConcat(a.pools, v.pools, b.pools, w.pools, more);
    assert forall k :: k in idOf ==> k in more && more[k] == idOf[k];
    hide AddedMatch, Represents, Extends;
    RepresentsGrows(a.reserves, v.reserves, idOf, more);
    RepresentsGrows(a.swaps, v.swaps, idOf, more);
    RepresentsGrows(a.liquidity, v.liquidity, idOf, more);
    RepresentsConcat(a.reserves, v.reserves, b.reserves, w.reserves, more);
    RepresentsConcat(a.swaps, v.swaps, b.swaps, w.swaps, more);
    RepresentsConcat(a.liquidity, v.liquidity, b.liquidity, w.liquidity, more);
  }

  lemma AppendedNext(a: Written, v: Written, w: Written)
    ensures Appended(a, NOTHING) == a
    ensures Appended(Appended(a, v), w) == Appended(a, Appended(v, w))
  {
    assert a.pools + (v.pools + w.pools) == a.pools + v.pools + w.pools;
  }

  class Writer {
    // the database
    var pools: seq<PoolRecord>
    var nextPoolId: int
    var reserves: seq<Keyed<int, Reserves>>
    var swaps: seq<Keyed<int, Swap>>
    var liquidity: seq<Keyed<int, Liquidity>>
    var checkpoint: Option<int>
    // the process
    var poolCache: map<Key, int>
    var lpSupplyCache: map<int, int>
    // what they stand for
    ghost var tables: Tables
    ghost var cache: LpCache
    ghost var idOf: map<Key, int>

    ghost predicate Valid()
      reads this
    {
      && PoolsMatch(pools, tables.pools, idOf)
      && Injective(idOf) && Below(idOf, nextPoolId)
      && Represents(reserves, tables.reserves, idOf)
      && Represents(swaps, tables.swaps, idOf)
      && Represents(liquidity, tables.liquidity, idOf)
      && checkpoint == tables.checkpoint
      && Extends(idOf, poolCache)
      && CacheRepresents(lpSupplyCache, cache, idOf) && CacheBelow(lpSupplyCache, nextPoolId)
    }

    /** An empty database and the first process. */
    constructor ()
      ensures Valid() && tables == EMPTY_TABLES && cache == map[]
    {
      pools, nextPoolId, reserves, swaps, liquidity, checkpoint := [], 1, [], [], [], None;
      poolCache, lpSupplyCache := map[], map[];
      tables, cache, idOf := EMPTY_TABLES, map[], map[];
    }

    /** A new process: both caches come from the tables. */
    method Restart()
      requires Valid()
      modifies this`poolCache, this`lpSupplyCache, this`cache
      ensures Valid() && cache == LoadLpCache(tables.reserves)
    {
      hide Injective, Represents, CacheRepresents, PoolsMatch, Below, CacheBelow, Extends, LoadLpCache;
      poolCache := LoadPoolCache(pools, tables.pools, idOf);
      lpSupplyCache := LoadLpCache(reserves);
      cache := LoadLpCache(tables.reserves);
      LoadRepresents(reserves, tables.reserves, idOf);
      LoadedBelow(reserves, tables.reserves, idOf, nextPoolId);
    }

    /** One block in one database transaction. What it returns are the rows newly inserted. */
    method WriteBlock(block: BlockBatch)
      returns (written: WrittenBlock)
      requires Valid()
      modifies this
      ensures Valid() && Extends(idOf, old(idOf))
      ensures tables == TablesAfter(old(tables), old(cache), block)
      ensures cache == CacheAfter(old(tables), old(cache), block)
      ensures StandsFor(written, WrittenBy(old(tables), old(cache), block), idOf)
    {
      hide Injective, Represents, CacheRepresents, PoolsMatch, Below, CacheBelow, NewFrom, Extends, AddedMatch,
           Inserted, Pass2, SortEvents, InsertedPools, NewPools, PoolKeys;
      var events := SortEvents(block.events);
      // pass 1
      var allPools, nextId, newPools, known;
      ghost var ids;
      allPools, nextId, newPools, known, ids := ResolvePools(pools, nextPoolId, poolCache, events, tables.pools, idOf);
      // pass 2
      CacheRepresentsMore(lpSupplyCache, cache, idOf, ids, nextPoolId);
      CacheBelowGrows(lpSupplyCache, nextPoolId, nextId);
      var b := BuildBatch(events, known, lpSupplyCache, cache, ids, nextId);
      ghost var n := NewBatch(tables, cache, block);
      assert n == Pass2(events, ids.Keys, cache);
      // the three inserts
      var allReserves, newReserves := StoreRows(reserves, b.reserves, tables.reserves, n.reserves, idOf, ids);
      var allSwaps, newSwaps := StoreRows(swaps, b.swaps, tables.swaps, n.swaps, idOf, ids);
      var allLiquidity, newLiquidity := StoreRows(liquidity, b.liquidity, tables.liquidity, n.liquidity, idOf, ids);
      // commit, with the checkpoint set whether or not it moves forward
      pools, nextPoolId, reserves, swaps, liquidity, checkpoint :=
        allPools, nextId, allReserves, allSwaps, allLiquidity, Some(block.slot);
      poolCache, lpSupplyCache := known, b.cache;
      tables, cache := TablesAfter(tables, cache, block), n.cache;
      idOf := ids;
      written := WrittenBlock(newPools, newReserves, newSwaps, newLiquidity);
    }

    /** The receive loop of one process: it loads its caches, writes the blocks it is sent and
        publishes what each write inserted. Database, cache and published rows go exactly as the
        machine of `Replay` says, w being the rows the machine returns meanwhile. */
    method RunWriter(blocks: seq<BlockBatch>, from: nat, received: seq<nat>, ghost m: Machine)
      returns (published: WrittenBlock, ghost w: Written)
      requires Valid() && tables == m.tables
      requires forall i :: 0 <= i < |received| ==> received[i] < |blocks|
      modifies this
      ensures Valid()
      ensures var m' := RunActions(blocks, m, Life(from, received));
              tables == m'.tables && cache == m'.cache && m'.returned == Appended(m.returned, w)
      ensures StandsFor(published, w, idOf)
    {
      assert StandsFor(NO_ROWS, NOTHING, idOf);
      hide Valid, TablesAfter, CacheAfter, WrittenBy, RunActions, Life, StandsFor, Extends, Appended, Joined;
      Restart();
      LifeStart(blocks, m, from);
      published, w := NO_ROWS, NOTHING;
      AppendedNext(m.returned, w, w);
      for i := 0 to |received|
        invariant Valid()
        invariant var m' := RunActions(blocks, m, Life(from, received[..i]));
                  tables == m'.tables && cache == m'.cache && m'.returned == Appended(m.returned, w)
        invariant StandsFor(published, w, idOf)
      {
        assert received[..i + 1] == received[..i] + [received[i]];
        LifeNext(blocks, m, from, received[..i], received[i]);
        ghost var ids, inserted := idOf, WrittenBy(tables, cache, blocks[received[i]]);
        var written := WriteBlock(blocks[received[i]]);
        StandsForNext(published, w, ids, written, inserted, idOf);
        AppendedNext(m.returned, w, inserted);
        published, w := Joined(published, written), Appended(w, inserted);
      }
      assert received[..|received|] == received;
    }
  }

  lemma CacheBelowGrows(cache: map<int, int>, next: int, later: int)
    requires CacheBelow(cache, next) && next <= later
    ensures CacheBelow(cache, later)
  {
  }

  lemma StoreRepresents<R(!new)>(table: seq<Keyed<int, R>>, namedTable: seq<Keyed<Key, R>>,
                                 rows: seq<Keyed<int, R>>, named: seq<Keyed<Key, R>>,
                                 idOf: map<Key, int>, more: map<Key, int>)
    requires Represents(table, namedTable, idOf) && Extends(more, idOf)
    requires Represents(rows, named, more)
    ensures Represents(Inserted(table, rows), Inserted(namedTable, named), more)
    ensures Represents(table + Inserted(table, rows), namedTable + Inserted(namedTable, named), more)
  {
    RepresentsGrows(table, namedTable, idOf, more);
    InsertedRepresents(table, namedTable, rows, named, more);
    RepresentsConcat(table, namedTable, Inserted(table, rows), Inserted(namedTable, named), more);
  }
}
