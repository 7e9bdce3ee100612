/** The stored tables column by column: which event each row comes from and which of its numbers each
    column carries. */
module StoredRows {
  import opened Numbers
  import opened EventCodec
  import opened Indexer
  import opened Replay
  import opened History
  import opened ChainOrder

  // ----- columns -----

  /** Columns are signed 64-bit numbers: what fits is stored as it is, the rest wraps round. */
  lemma SignedColumn(x: u64)
    ensures -0x8000_0000_0000_0000 <= AsI64(x) < 0x8000_0000_0000_0000
    ensures x < 0x8000_0000_0000_0000 ==> AsI64(x) == x
    ensures x >= 0x8000_0000_0000_0000 ==> AsI64(x) == x - 0x1_0000_0000_0000_0000
  {
  }

  predicate IsRowOf<R>(r: Keyed<Key, R>, e: DecodedEvent) {
    r.signature == e.signature && r.innerIxIdx == e.innerIxIdx && r.pool == e.event.pool
  }

  /** A pool's reserves after the event, with an LP supply. */
  predicate IsReservesRow(r: Keyed<Key, Reserves>, e: DecodedEvent, lpSupply: int) {
    && IsRowOf(r, e) && r.row.lastSlot == e.slot && r.row.lpSupply == lpSupply
    && r.row.solReserve == AsI64(e.event.solReserveAfter)
    && r.row.tokenReserve == AsI64(e.event.tokenReserveAfter)
  }

  predicate IsSwapRow(r: Keyed<Key, Swap>, e: DecodedEvent) {
    && e.event.SwapExecuted? && IsRowOf(r, e) && r.row.slot == e.slot
    && r.row.user == e.event.user && r.row.solSource == e.event.solSource
    && (r.row.isBuy <==> e.event.buy)
    && r.row.amountInGross == AsI64(e.event.amountInGross) && r.row.amountInNet == AsI64(e.event.amountInNet)
    && r.row.amountOutGross == AsI64(e.event.amountOutGross) && r.row.amountOutNet == AsI64(e.event.amountOutNet)
    && r.row.fee == AsI64(e.event.fee)
    && r.row.solReserveAfter == AsI64(e.event.solReserveAfter)
    && r.row.tokenReserveAfter == AsI64(e.event.tokenReserveAfter)
  }

  /** Deposits and withdrawals share a table; a withdrawal locks nothing, and its LP column is what
      was burnt. */
  predicate IsLiquidityRow(r: Keyed<Key, Liquidity>, e: DecodedEvent) {
    && (e.event.LiquidityAdded? || e.event.LiquidityRemoved?) && IsRowOf(r, e) && r.row.slot == e.slot
    && r.row.provider == e.event.provider && r.row.lpSupplyAfter == AsI64(e.event.lpSupplyAfter)
    && (r.row.isAdd <==> e.event.LiquidityAdded?)
    && (e.event.LiquidityAdded? ==>
          && r.row.solAmountGross == AsI64(e.event.solInGross) && r.row.solAmountNet == AsI64(e.event.solInNet)
          && r.row.tokensAmountGross == AsI64(e.event.tokensInGross) && r.row.tokensAmountNet == AsI64(e.event.tokensInNet)
          && r.row.lpUserAmount == AsI64(e.event.lpToProvider) && r.row.lpLocked == AsI64(e.event.lpLocked))
    && (e.event.LiquidityRemoved? ==>
          && r.row.solAmountGross == AsI64(e.event.solOutGross) && r.row.solAmountNet == AsI64(e.event.solOutNet)
          && r.row.tokensAmountGross == AsI64(e.event.tokensOutGross) && r.row.tokensAmountNet == AsI64(e.event.tokensOutNet)
          && r.row.lpUserAmount == AsI64(e.event.lpBurned) && r.row.lpLocked == 0)
  }

  predicate IsPoolRow(r: PoolRow, e: DecodedEvent) {
    && e.event.PoolCreated? && r.signature == e.signature && r.slot == e.slot
    && r.pubkey == e.event.pool && r.config == e.event.config && r.tokenMint == e.event.tokenMint
    && r.lpMint == e.event.lpMint && r.creator == e.event.creator
    && r.solInitial == AsI64(e.event.solInNet) && r.tokensInitial == AsI64(e.event.tokensInNet)
    && r.lpSupplyInitial == AsI64(e.event.lpSupplyAfter)
  }

  // ----- which events have a row -----

  /** Positions of the events that have a row in a table: all events of listed pools in the reserves
      table, their swaps in one, their deposits and withdrawals in the third. */
  function Rowed(es: seq<DecodedEvent>, listed: set<Key>, k: Table): seq<nat> {
    if es == [] then []
    else
      var n := |es| - 1;
      Rowed(es[..n], listed, k) + if es[n].event.pool in listed && HasRow(es[n], k) then [n] else []
  }

  predicate HasRow(e: DecodedEvent, k: Table) {
    match k
    case ReservesTable => true
    case SwapsTable => e.event.SwapExecuted?
    case LiquidityTable => e.event.LiquidityAdded? || e.event.LiquidityRemoved?
  }

  lemma RowedNext(es: seq<DecodedEvent>, e: DecodedEvent, listed: set<Key>, k: Table)
    ensures Rowed(es + [e], listed, k) ==
              if e.event.pool in listed && HasRow(e, k) then Rowed(es, listed, k) + [|es|] else Rowed(es, listed, k)
  {
    assert (es + [e])[..|es|] == es;
  }

  /** They are all that qualify. */
  lemma {:induction false} RowedIs(es: seq<DecodedEvent>, listed: set<Key>, k: Table)
    ensures forall i :: i in Rowed(es, listed, k) <==> 0 <= i < |es| && es[i].event.pool in listed && HasRow(es[i], k)
    decreases |es|
  {
    if es != [] {
      var n := |es| - 1;
      RowedIs(es[..n], listed, k);
      hide HasRow;
      assert forall i :: 0 <= i < n ==> es[..n][i] == es[i];
    }
  }

  /** And they rise. */
  lemma {:induction false} RowedRises(es: seq<DecodedEvent>, listed: set<Key>, k: Table)
    ensures forall a, b :: 0 <= a < b < |Rowed(es, listed, k)| ==> Rowed(es, listed, k)[a] < Rowed(es, listed, k)[b]
    decreases |es|
  {
    if es != [] {
      var n := |es| - 1;
      var before := Rowed(es[..n], listed, k);
      RowedRises(es[..n], listed, k);
      RowedIs(es[..n], listed, k);
      hide HasRow;
      forall a | 0 <= a < |before|
        ensures before[a] < n
      {
        assert before[a] in before;
      }
    }
  }

  ghost predicate ReservesMatch(rows: seq<Keyed<Key, Reserves>>, es: seq<DecodedEvent>, at: seq<nat>) {
    |rows| == |at| && forall a :: 0 <= a < |at| ==> at[a] < |es| && ReservesRowAt(rows[a], es, at[a])
  }

  ghost predicate SwapsMatch(rows: seq<Keyed<Key, Swap>>, es: seq<DecodedEvent>, at: seq<nat>) {
    |rows| == |at| && forall a :: 0 <= a < |at| ==> at[a] < |es| && IsSwapRow(rows[a], es[at[a]])
  }

  ghost predicate LiquidityMatch(rows: seq<Keyed<Key, Liquidity>>, es: seq<DecodedEvent>, at: seq<nat>) {
    |rows| == |at| && forall a :: 0 <= a < |at| ==> at[a] < |es| && IsLiquidityRow(rows[a], es[at[a]])
  }

  /** The row of event i, with the LP supply last reported up to and including it. */
  ghost predicate ReservesRowAt(r: Keyed<Key, Reserves>, es: seq<DecodedEvent>, i: int)
    requires 0 <= i < |es|
  {
    IsReservesRow(r, es[i], SupplyAfter(es[..i + 1], es[i].event.pool))
  }

  /** What "last reported" means: the supply of the last event of the pool that is no swap. */
  lemma {:induction false} SupplyIsLastReported(es: seq<DecodedEvent>, p: Key, i: nat)
    requires i < |es| && es[i].event.pool == p && !es[i].event.SwapExecuted?
    requires forall j :: i < j < |es| && es[j].event.pool == p ==> es[j].event.SwapExecuted?
    ensures SupplyAfter(es, p) == AsI64(es[i].event.lpSupplyAfter)
    decreases |es|
  {
    var n := |es| - 1;
    if i < n {
      var init := es[..n];
      assert forall j :: 0 <= j < n ==> init[j] == es[j];
      SupplyIsLastReported(init, p, i);
    }
  }

  lemma {:induction false} ReservesHistoryRows(es: seq<DecodedEvent>, listed: set<Key>)
    ensures ReservesMatch(ReservesHistory(es, listed), es, Rowed(es, listed, ReservesTable))
    decreases |es|
  {
    if es != [] {
      var init, e := es[..|es| - 1], es[|es| - 1];
      assert es == init + [e];
      var p, at := e.event.pool, Rowed(init, listed, ReservesTable);
      HistoryNext(init, e, listed);
      RowedNext(init, e, listed, ReservesTable);
      NewColumns(e, SupplyAfter(es, p));
      assert HasRow(e, ReservesTable);
      hide *;
      ReservesHistoryRows(init, listed);
      if p in listed {
        ReservesMatchNext(ReservesHistory(init, listed), init, at, e, NewReserves(p, SupplyAfter(es, p), e));
      } else {
        ReservesMatchStays(ReservesHistory(init, listed), init, at, e);
        assert ReservesHistory(init, listed) + [] == ReservesHistory(init, listed);
      }
    }
  }

  lemma ReservesMatchStays(rows: seq<Keyed<Key, Reserves>>, es: seq<DecodedEvent>, at: seq<nat>, e: DecodedEvent)
    requires ReservesMatch(rows, es, at)
    ensures ReservesMatch(rows, es + [e], at)
  {
    PrefixesKeep(es, e);
    hide ReservesRowAt;
  }

  lemma ReservesMatchNext(rows: seq<Keyed<Key, Reserves>>, es: seq<DecodedEvent>, at: seq<nat>, e: DecodedEvent,
                          r: Keyed<Key, Reserves>)
    requires ReservesMatch(rows, es, at) && IsReservesRow(r, e, SupplyAfter(es + [e], e.event.pool))
    ensures ReservesMatch(rows + [r], es + [e], at + [|es|])
  {
    ReservesMatchStays(rows, es, at, e);
    assert (es + [e])[..|es| + 1] == es + [e];
    assert ReservesRowAt(r, es + [e], |es|);
    hide ReservesRowAt;
  }

  lemma {:induction false} SwapHistoryRows(es: seq<DecodedEvent>, listed: set<Key>)
    ensures SwapsMatch(SwapHistory(es, listed), es, Rowed(es, listed, SwapsTable))
    decreases |es|
  {
    if es != [] {
      var init, e := es[..|es| - 1], es[|es| - 1];
      assert es == init + [e];
      SwapHistoryRows(init, listed);
      HistoryNext(init, e, listed);
      RowedNext(init, e, listed, SwapsTable);
      NewColumns(e, 0);
      hide SwapHistory, Rowed, NewSwap, IsSwapRow;
    }
  }

  lemma {:induction false} LiquidityHistoryRows(es: seq<DecodedEvent>, listed: set<Key>)
    ensures LiquidityMatch(LiquidityHistory(es, listed), es, Rowed(es, listed, LiquidityTable))
    decreases |es|
  {
    if es != [] {
      var init, e := es[..|es| - 1], es[|es| - 1];
      assert es == init + [e];
      LiquidityHistoryRows(init, listed);
      HistoryNext(init, e, listed);
      RowedNext(init, e, listed, LiquidityTable);
      NewColumns(e, 0);
      hide LiquidityHistory, Rowed, NewLiquidity, IsLiquidityRow;
    }
  }

  lemma PrefixesKeep(es: seq<DecodedEvent>, e: DecodedEvent)
    ensures forall i :: 0 <= i < |es| ==> (es + [e])[i] == es[i]
    ensures forall i, r :: 0 <= i < |es| ==> (ReservesRowAt(r, es + [e], i) <==> ReservesRowAt(r, es, i))
  {
    forall i, r | 0 <= i < |es|
      ensures ReservesRowAt(r, es + [e], i) <==> ReservesRowAt(r, es, i)
    {
      assert (es + [e])[..i + 1] == es[..i + 1];
    }
  }

  lemma NewColumns(e: DecodedEvent, lpSupply: int)
    ensures IsReservesRow(NewReserves(e.event.pool, lpSupply, e), e, lpSupply)
    ensures e.event.SwapExecuted? ==> IsSwapRow(NewSwap(e.event.pool, e), e)
    ensures e.event.LiquidityAdded? || e.event.LiquidityRemoved? ==> IsLiquidityRow(NewLiquidity(e.event.pool, e), e)
  {
  }

  /** The reserves, swap and liquidity tables of a clean pass are, row for row and column for column,
      the folded events of the listed pools. */
  lemma StoredRowsMatch(blocks: seq<BlockBatch>)
    requires ValidStream(blocks)
    ensures var t, es, listed := CleanTables(blocks), AllEvents(blocks), Known(blocks);
            && ReservesMatch(t.reserves, es, Rowed(es, listed, ReservesTable))
            && SwapsMatch(t.swaps, es, Rowed(es, listed, SwapsTable))
            && LiquidityMatch(t.liquidity, es, Rowed(es, listed, LiquidityTable))
  {
    hide *;
    CleanIsHistoryWhole(blocks);
    ReservesHistoryRows(AllEvents(blocks), Known(blocks));
    SwapHistoryRows(AllEvents(blocks), Known(blocks));
    LiquidityHistoryRows(AllEvents(blocks), Known(blocks));
  }

  // ----- insert or ignore -----

  /** Row i of a batch has a (signature, index) that is neither stored nor earlier in the batch. */
  predicate IsNew<R>(table: seq<Keyed<Key, R>>, rows: seq<Keyed<Key, R>>, i: nat)
    requires i < |rows|
  {
    && (forall j :: 0 <= j < |table| ==>
          !(table[j].signature == rows[i].signature && table[j].innerIxIdx == rows[i].innerIxIdx))
    && (forall j :: 0 <= j < i ==>
          !(rows[j].signature == rows[i].signature && rows[j].innerIxIdx == rows[i].innerIxIdx))
  }

  function NewRows<R>(table: seq<Keyed<Key, R>>, rows: seq<Keyed<Key, R>>, n: nat): seq<Keyed<Key, R>>
    requires n <= |rows|
  {
    if n == 0 then [] else NewRows(table, rows, n - 1) + if IsNew(table, rows, n - 1) then [rows[n - 1]] else []
  }

  lemma {:induction false} InsertedNext<R>(table: seq<Keyed<Key, R>>, rows: seq<Keyed<Key, R>>, r: Keyed<Key, R>)
    ensures Inserted(table, rows + [r]) == Inserted(table, rows)
              + if HasKey(table + Inserted(table, rows), r.signature, r.innerIxIdx) then [] else [r]
    decreases |rows|
  {
    if rows == [] {
      assert rows + [r] == [r] && [r][1..] == [] && table + [] == table;
    } else {
      var first, rest := rows[0], rows[1..];
      assert (rows + [r])[1..] == rest + [r];
      hide HasKey;
      if HasKey(table, first.signature, first.innerIxIdx) {
        InsertedNext(table, rest, r);
      } else {
        InsertedNext(table + [first], rest, r);
        assert table + ([first] + Inserted(table + [first], rest)) == table + [first] + Inserted(table + [first], rest);
      }
    }
  }

  lemma {:induction false} InsertedKeys<R>(table: seq<Keyed<Key, R>>, rows: seq<Keyed<Key, R>>, s: string, i: int)
    ensures HasKey(table + Inserted(table, rows), s, i) <==> HasKey(table, s, i) || HasKey(rows, s, i)
    decreases |rows|
  {
    if rows == [] {
      assert table + [] == table;
    } else {
      var first, rest := rows[0], rows[1..];
      KeysConcat([first], rest, s, i);
      assert [first] + rest == rows;
      if HasKey(table, first.signature, first.innerIxIdx) {
        InsertedKeys(table, rest, s, i);
        OneKey(first, s, i);
      } else {
        InsertedKeys(table + [first], rest, s, i);
        KeysConcat(table, [first], s, i);
        assert table + ([first] + Inserted(table + [first], rest)) == table + [first] + Inserted(table + [first], rest);
      }
    }
  }

  lemma OneKey<R>(r: Keyed<Key, R>, s: string, i: int)
    ensures HasKey([r], s, i) <==> r.signature == s && r.innerIxIdx == i
  {
    assert [r][0] == r;
  }

  lemma KeysConcat<R>(a: seq<Keyed<Key, R>>, b: seq<Keyed<Key, R>>, s: string, i: int)
    ensures HasKey(a + b, s, i) <==> HasKey(a, s, i) || HasKey(b, s, i)
  {
    if HasKey(a, s, i) {
      HasKeyGrows(a, a + b, s, i);
    }
    if HasKey(b, s, i) {
      var j :| 0 <= j < |b| && b[j].signature == s && b[j].innerIxIdx == i;
      assert (a + b)[|a| + j] == b[j];
    }
  }

  /** An insert stores and returns exactly the new rows of the batch, in order. */
  lemma {:induction false} InsertRule<R>(table: seq<Keyed<Key, R>>, rows: seq<Keyed<Key, R>>, n: nat)
    requires n <= |rows|
    ensures Inserted(table, rows[..n]) == NewRows(table, rows, n)
    decreases n
  {
    if n == 0 {
      assert rows[..0] == [];
    } else {
      var r := rows[n - 1];
      InsertRule(table, rows, n - 1);
      assert rows[..n] == rows[..n - 1] + [r];
      InsertedNext(table, rows[..n - 1], r);
      InsertedKeys(table, rows[..n - 1], r.signature, r.innerIxIdx);
      assert IsNew(table, rows, n - 1) <==>
             !HasKey(table, r.signature, r.innerIxIdx) && !HasKey(rows[..n - 1], r.signature, r.innerIxIdx);
      hide HasKey, IsNew, Inserted;
    }
  }

  // ----- the pools table -----

  /** One row for each pool, from its first creation. */
  function PoolsHistory(es: seq<DecodedEvent>): seq<PoolRow> {
    if es == [] then []
    else
      var e := es[|es| - 1];
      var before := PoolsHistory(es[..|es| - 1]);
      if e.event.PoolCreated? && e.event.pool !in PoolKeys(before) then before + [NewPool(e)] else before
  }

  lemma PoolsNext(es: seq<DecodedEvent>, e: DecodedEvent)
    ensures var before := PoolsHistory(es);
            PoolsHistory(es + [e]) ==
              if e.event.PoolCreated? && e.event.pool !in PoolKeys(before) then before + [NewPool(e)] else before
  {
    assert (es + [e])[..|es|] == es;
  }

  /** Pass 1 over es, after `before`. */
  lemma {:induction false} PoolsContinue(before: seq<DecodedEvent>, es: seq<DecodedEvent>)
    ensures PoolsHistory(before + es)
         == PoolsHistory(before) + InsertedPools(PoolsHistory(before), NewPools(es))
    decreases |es|
  {
    if es == [] {
      assert before + es == before;
    } else {
      var e, rest := es[0], es[1..];
      assert before + es == before + [e] + rest;
      PoolsNext(before, e);
      PoolsContinue(before + [e], rest);
      assert NewPools(es) == if e.event.PoolCreated? then [NewPool(e)] + NewPools(rest) else NewPools(rest);
      hide PoolsHistory, PoolKeys, NewPools, InsertedPools;
      if e.event.PoolCreated? {
        InsertOne(PoolsHistory(before), NewPool(e), NewPools(rest));
      }
    }
  }

  lemma InsertOne(pools: seq<PoolRow>, r: PoolRow, rest: seq<PoolRow>)
    ensures pools + InsertedPools(pools, [r] + rest) ==
              if r.pubkey in PoolKeys(pools) then pools + InsertedPools(pools, rest)
              else (pools + [r]) + InsertedPools(pools + [r], rest)
  {
    hide PoolKeys;
    assert ([r] + rest)[1..] == rest;
    var more := InsertedPools(pools + [r], rest);
    assert pools + ([r] + more) == (pools + [r]) + more;
  }

  lemma {:induction false} StoredPools(blocks: seq<BlockBatch>)
    ensures CleanTables(blocks).pools == PoolsHistory(AllEvents(blocks))
    decreases |blocks|
  {
    if blocks != [] {
      var n := |blocks| - 1;
      StoredPools(blocks[..n]);
      PoolsContinue(AllEvents(blocks[..n]), SortEvents(blocks[n].events));
      hide PoolsHistory, SortEvents, NewPools, InsertedPools, NewBatch, Inserted;
    }
  }

  /** r is the row of event i, the first creation of its pool. */
  ghost predicate PoolRowAt(r: PoolRow, es: seq<DecodedEvent>, i: int) {
    && 0 <= i < |es| && IsPoolRow(r, es[i])
    && forall j :: 0 <= j < i && es[j].event.PoolCreated? ==> es[j].event.pool != r.pubkey
  }

  ghost predicate HasOrigin(r: PoolRow, es: seq<DecodedEvent>) {
    exists i :: PoolRowAt(r, es, i)
  }

  lemma OriginStays(r: PoolRow, es: seq<DecodedEvent>, e: DecodedEvent)
    requires HasOrigin(r, es)
    ensures HasOrigin(r, es + [e])
  {
    var i :| PoolRowAt(r, es, i);
    assert PoolRowAt(r, es + [e], i);
  }

  lemma NewOrigin(es: seq<DecodedEvent>, e: DecodedEvent)
    requires e.event.PoolCreated? && !Creates(es, e.event.pool)
    ensures HasOrigin(NewPool(e), es + [e])
  {
    forall j | 0 <= j < |es| && es[j].event.PoolCreated?
      ensures es[j].event.pool != e.event.pool
    {
      assert es[j] in es;
    }
    assert PoolRowAt(NewPool(e), es + [e], |es|);
  }

  lemma CreatesNext(es: seq<DecodedEvent>, e: DecodedEvent, k: Key)
    ensures Creates(es + [e], k) <==> Creates(es, k) || (e.event.PoolCreated? && e.event.pool == k)
  {
    assert forall f :: f in es + [e] <==> f in es || f == e;
  }

  lemma PoolKeysNext(pools: seq<PoolRow>, e: DecodedEvent)
    requires e.event.PoolCreated?
    ensures NewPool(e).pubkey == e.event.pool
    ensures PoolKeys(pools + [NewPool(e)]) == PoolKeys(pools) + {e.event.pool}
  {
    var one := [NewPool(e)];
    PoolKeysConcat(pools, one);
    assert one[0].pubkey == e.event.pool;
    assert PoolKeys(one) == {e.event.pool};
  }

  lemma {:induction false} PoolsHistoryIs(es: seq<DecodedEvent>)
    ensures forall k :: k in PoolKeys(PoolsHistory(es)) <==> Creates(es, k)
    ensures forall r :: r in PoolsHistory(es) ==> HasOrigin(r, es)
    ensures DistinctPools(PoolsHistory(es))
    decreases |es|
  {
    if es != [] {
      var n := |es| - 1;
      var init, e := es[..n], es[n];
      assert es == init + [e];
      PoolsHistoryIs(init);
      PoolsNext(init, e);
      var before := PoolsHistory(init);
      hide PoolsHistory, Creates, HasOrigin, DistinctPools, PoolKeys, NewPool;
      forall r | r in before
        ensures HasOrigin(r, es)
      {
        OriginStays(r, init, e);
      }
      forall k
        ensures Creates(es, k) <==> Creates(init, k) || (e.event.PoolCreated? && e.event.pool == k)
      {
        CreatesNext(init, e, k);
      }
      if e.event.PoolCreated? && e.event.pool !in PoolKeys(before) {
        NewOrigin(init, e);
        PoolKeysNext(before, e);
        NewPoolDistinct(before, NewPool(e));
      }
    }
  }

  /** The pools table of a clean pass has one row for each pool whose creation was in it, and every
      row is, column for column, that of the pool's first creation in fold order. */
  lemma StoredPoolsMatch(blocks: seq<BlockBatch>, p: Key)
    ensures var pools := CleanTables(blocks).pools;
            && DistinctPools(pools)
            && (p in PoolKeys(pools) <==> Creates(AllEvents(blocks), p))
            && forall r :: r in pools ==> HasOrigin(r, AllEvents(blocks))
  {
    StoredPools(blocks);
    PoolsHistoryIs(AllEvents(blocks));
    hide PoolsHistory, CleanTables, AllEvents, HasOrigin, DistinctPools, PoolKeys, Creates;
  }
}
