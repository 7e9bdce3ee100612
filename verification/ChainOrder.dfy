/** The order of a block's events. The subscription delivers them as the chain ran them; the writer
    folds them by (signature, index) instead. Exactly when does that tell for a pool? */
module ChainOrder {
  import opened Wrappers
  import opened EventCodec
  import opened Indexer
  import opened Replay
  import opened LatestRows
  import opened History

  /** All events in the order in which the chain ran them. */
  function ChainEvents(blocks: seq<BlockBatch>): seq<DecodedEvent> {
    if blocks == [] then []
    else ChainEvents(blocks[..|blocks| - 1]) + blocks[|blocks| - 1].events
  }

  /** The events of one pool, in the order given. */
  function Of(es: seq<DecodedEvent>, p: Key): seq<DecodedEvent> {
    if es == [] then []
    else (if es[0].event.pool == p then [es[0]] else []) + Of(es[1..], p)
  }

  /** The stored rows of one pool, in table order. */
  function RowsFor<R>(rows: seq<Keyed<Key, R>>, p: Key): seq<Keyed<Key, R>> {
    if rows == [] then []
    else
      var last := rows[|rows| - 1];
      RowsFor(rows[..|rows| - 1], p) + if last.pool == p then [last] else []
  }

  /** In every block the (signature, index) pairs of the pool's events do not decrease. */
  ghost predicate InKeyOrder(blocks: seq<BlockBatch>, p: Key) {
    forall i :: 0 <= i < |blocks| ==> SortedEvents(Of(blocks[i].events, p))
  }

  // ----- one pool's part of the sort -----

  lemma OfFirst(e: DecodedEvent, es: seq<DecodedEvent>, p: Key)
    ensures Of([e] + es, p) == if e.event.pool == p then [e] + Of(es, p) else Of(es, p)
  {
    assert ([e] + es)[1..] == es;
  }

  lemma Regroup<T>(a: seq<T>, b: seq<T>, c: seq<T>)
    ensures (a + b) + c == a + (b + c)
  {
  }

  lemma {:induction false} OfConcat(a: seq<DecodedEvent>, b: seq<DecodedEvent>, p: Key)
    ensures Of(a + b, p) == Of(a, p) + Of(b, p)
    decreases |a|
  {
    if a == [] {
      assert a + b == b;
    } else {
      var e, rest := a[0], a[1..];
      assert a == [e] + rest;
      hide Of;
      Regroup([e], rest, b);
      OfFirst(e, rest, p);
      OfFirst(e, rest + b, p);
      OfConcat(rest, b, p);
      Regroup([e], Of(rest, p), Of(b, p));
    }
  }

  lemma OfNext(es: seq<DecodedEvent>, e: DecodedEvent, p: Key)
    ensures Of(es + [e], p) == if e.event.pool == p then Of(es, p) + [e] else Of(es, p)
  {
    OfConcat(es, [e], p);
    assert [e][1..] == [];
  }

  lemma {:induction false} OfMembers(es: seq<DecodedEvent>, p: Key)
    ensures forall e :: e in Of(es, p) <==> e in es && e.event.pool == p
    decreases |es|
  {
    if es != [] {
      OfMembers(es[1..], p);
      assert es == [es[0]] + es[1..];
    }
  }

  lemma InsertFirst(e: DecodedEvent, es: seq<DecodedEvent>)
    requires forall f :: f in es ==> EventLe(e, f)
    ensures InsertSorted(e, es) == [e] + es
  {
    if es != [] {
      assert es[0] in es;
    }
  }

  lemma InsertLater(e: DecodedEvent, f: DecodedEvent, es: seq<DecodedEvent>)
    requires !EventLe(e, f)
    ensures InsertSorted(e, [f] + es) == [f] + InsertSorted(e, es)
  {
    assert ([f] + es)[1..] == es;
  }

  lemma FirstIsLeast(e: DecodedEvent, es: seq<DecodedEvent>)
    requires SortedEvents(es) && es != [] && EventLe(e, es[0])
    ensures forall f :: f in es ==> EventLe(e, f)
  {
    forall f | f in es
      ensures EventLe(e, f)
    {
      var b :| 0 <= b < |es| && es[b] == f;
      if b > 0 {
        EventTransitive(e, es[0], f);
      }
    }
  }

  /** Inserting an event and then looking at one pool, or the other way round. */
  lemma {:induction false} OfInsert(e: DecodedEvent, es: seq<DecodedEvent>, p: Key)
    requires SortedEvents(es)
    ensures Of(InsertSorted(e, es), p) ==
              if e.event.pool == p then InsertSorted(e, Of(es, p)) else Of(es, p)
    decreases |es|
  {
    if es == [] {
      OfFirst(e, [], p);
      assert [e] + [] == [e];
    } else {
      var h, t := es[0], es[1..];
      assert es == [h] + t && SortedEvents(t);
      hide Of, InsertSorted, SortedEvents, EventLe;
      if EventLe(e, h) {
        FirstIsLeast(e, es);
        InsertFirst(e, es);
        OfMembers(es, p);
        InsertFirst(e, Of(es, p));
        OfFirst(e, es, p);
      } else {
        InsertLater(e, h, t);
        InsertLater(e, h, Of(t, p));
        OfFirst(h, t, p);
        OfFirst(h, InsertSorted(e, t), p);
        OfInsert(e, t, p);
      }
    }
  }

  lemma {:induction false} OfSort(es: seq<DecodedEvent>, p: Key)
    ensures Of(SortEvents(es), p) == SortEvents(Of(es, p))
    decreases |es|
  {
    if es != [] {
      var e, rest := es[0], es[1..];
      assert es == [e] + rest;
      OfSort(rest, p);
      SortSorts(rest);
      OfInsert(e, SortEvents(rest), p);
      OfFirst(e, rest, p);
      SortFirst(e, Of(rest, p));
    }
  }

  lemma SortFirst(e: DecodedEvent, es: seq<DecodedEvent>)
    ensures SortEvents([e] + es) == InsertSorted(e, SortEvents(es))
  {
    assert ([e] + es)[1..] == es;
  }

  lemma {:induction false} SortKeepsLength(es: seq<DecodedEvent>)
    ensures |SortEvents(es)| == |es|
    decreases |es|
  {
    if es != [] {
      SortKeepsLength(es[1..]);
      InsertLength(es[0], SortEvents(es[1..]));
    }
  }

  lemma {:induction false} InsertLength(e: DecodedEvent, es: seq<DecodedEvent>)
    ensures |InsertSorted(e, es)| == |es| + 1
    decreases |es|
  {
    if es != [] && !EventLe(e, es[0]) {
      InsertLength(e, es[1..]);
    }
  }

  /** The sort is stable: it leaves alone what is in order. */
  lemma {:induction false} SortedStays(es: seq<DecodedEvent>)
    requires SortedEvents(es)
    ensures SortEvents(es) == es
    decreases |es|
  {
    if es != [] {
      SortedStays(es[1..]);
      forall f | f in es[1..]
        ensures EventLe(es[0], f)
      {
        var b :| 0 <= b < |es[1..]| && es[1..][b] == f;
        assert es[b + 1] == f;
      }
      InsertFirst(es[0], es[1..]);
    }
  }

  // ----- one pool's part of the history -----

  /** One row more, or none. */
  lemma RowsForNext<R>(rows: seq<Keyed<Key, R>>, added: bool, r: Keyed<Key, R>, p: Key)
    ensures RowsFor(rows + (if added then [r] else []), p)
         == RowsFor(rows, p) + (if added && r.pool == p then [r] else [])
  {
    assert (rows + [r])[..|rows|] == rows;
    assert rows + [] == rows;
  }

  lemma {:induction false} SupplyOf(es: seq<DecodedEvent>, p: Key)
    ensures LastSet(Of(es, p), p) == LastSet(es, p)
    ensures SupplyAfter(Of(es, p), p) == SupplyAfter(es, p)
    decreases |es|
  {
    if es != [] {
      var init, e := es[..|es| - 1], es[|es| - 1];
      assert es == init + [e];
      SupplyOf(init, p);
      OfNext(init, e, p);
      LastSetNext(init, e, p);
      LastSetNext(Of(init, p), e, p);
      hide LastSet;
    }
  }

  lemma LastSetNext(es: seq<DecodedEvent>, e: DecodedEvent, p: Key)
    ensures LastSet(es + [e], p) ==
              if e.event.pool == p && !e.event.SwapExecuted? then Some(AsI64(e.event.lpSupplyAfter))
              else LastSet(es, p)
  {
    assert (es + [e])[..|es|] == es;
  }

  lemma {:induction false} ReservesRowsFor(es: seq<DecodedEvent>, listed: set<Key>, p: Key)
    requires p in listed
    ensures RowsFor(ReservesHistory(es, listed), p) == ReservesHistory(Of(es, p), {p})
    decreases |es|
  {
    if es != [] {
      var init, e := es[..|es| - 1], es[|es| - 1];
      var k := e.event.pool;
      assert es == init + [e];
      ReservesRowsFor(init, listed, p);
      HistoryNext(init, e, listed);
      OfNext(init, e, p);
      HistoryNext(Of(init, p), e, {p});
      SupplyOf(es, p);
      hide RowsFor, ReservesHistory, Of, SupplyAfter;
      RowsForNext(ReservesHistory(init, listed), k in listed, NewReserves(k, SupplyAfter(es, k), e), p);
      if k != p {
        assert RowsFor(ReservesHistory(init, listed), p) + [] == RowsFor(ReservesHistory(init, listed), p);
      }
    }
  }

  lemma {:induction false} SwapRowsFor(es: seq<DecodedEvent>, listed: set<Key>, p: Key)
    requires p in listed
    ensures RowsFor(SwapHistory(es, listed), p) == SwapHistory(Of(es, p), {p})
    decreases |es|
  {
    if es != [] {
      var init, e := es[..|es| - 1], es[|es| - 1];
      var k := e.event.pool;
      assert es == init + [e];
      SwapRowsFor(init, listed, p);
      HistoryNext(init, e, listed);
      OfNext(init, e, p);
      HistoryNext(Of(init, p), e, {p});
      hide RowsFor, SwapHistory, Of, SupplyAfter;
      if e.event.SwapExecuted? {
        RowsForNext(SwapHistory(init, listed), k in listed, NewSwap(k, e), p);
        if k != p {
          assert RowsFor(SwapHistory(init, listed), p) + [] == RowsFor(SwapHistory(init, listed), p);
        }
      } else {
        assert SwapHistory(init, listed) + [] == SwapHistory(init, listed);
        assert SwapHistory(Of(init, p), {p}) + [] == SwapHistory(Of(init, p), {p});
      }
    }
  }

  lemma {:induction false} LiquidityRowsFor(es: seq<DecodedEvent>, listed: set<Key>, p: Key)
    requires p in listed
    ensures RowsFor(LiquidityHistory(es, listed), p) == LiquidityHistory(Of(es, p), {p})
    decreases |es|
  {
    if es != [] {
      var init, e := es[..|es| - 1], es[|es| - 1];
      var k := e.event.pool;
      assert es == init + [e];
      LiquidityRowsFor(init, listed, p);
      HistoryNext(init, e, listed);
      OfNext(init, e, p);
      HistoryNext(Of(init, p), e, {p});
      hide RowsFor, LiquidityHistory, Of, SupplyAfter;
      if e.event.LiquidityAdded? || e.event.LiquidityRemoved? {
        RowsForNext(LiquidityHistory(init, listed), k in listed, NewLiquidity(k, e), p);
        if k != p {
          assert RowsFor(LiquidityHistory(init, listed), p) + [] == RowsFor(LiquidityHistory(init, listed), p);
        }
      } else {
        assert LiquidityHistory(init, listed) + [] == LiquidityHistory(init, listed);
        assert LiquidityHistory(Of(init, p), {p}) + [] == LiquidityHistory(Of(init, p), {p});
      }
    }
  }

  /** The rows of a listed pool are the history of its own events. */
  lemma RowsForHistory(es: seq<DecodedEvent>, listed: set<Key>, p: Key)
    requires p in listed
    ensures RowsFor(ReservesHistory(es, listed), p) == ReservesHistory(Of(es, p), {p})
    ensures RowsFor(SwapHistory(es, listed), p) == SwapHistory(Of(es, p), {p})
    ensures RowsFor(LiquidityHistory(es, listed), p) == LiquidityHistory(Of(es, p), {p})
  {
    ReservesRowsFor(es, listed, p);
    SwapRowsFor(es, listed, p);
    LiquidityRowsFor(es, listed, p);
  }

  ghost predicate SameKeys(a: seq<DecodedEvent>, b: seq<DecodedEvent>) {
    |a| == |b| && forall k :: 0 <= k < |a| ==> SameKey(a[k], b[k])
  }

  /** One reserves row for each event of the pool, under its key. */
  lemma {:induction false} HistoryKeys(es: seq<DecodedEvent>, p: Key)
    requires forall e :: e in es ==> e.event.pool == p
    ensures |ReservesHistory(es, {p})| == |es|
    ensures forall k :: 0 <= k < |es| ==>
              ReservesHistory(es, {p})[k].signature == es[k].signature
              && ReservesHistory(es, {p})[k].innerIxIdx == es[k].innerIxIdx
    decreases |es|
  {
    if es != [] {
      var init, e := es[..|es| - 1], es[|es| - 1];
      assert forall f :: f in init ==> f in es;
      assert e in es && es == init + [e];
      HistoryNext(init, e, {p});
      hide ReservesHistory, SupplyAfter;
      HistoryKeys(init, p);
    }
  }

  // ----- the two orders, over the whole stream -----

  lemma SortedByKeys(a: seq<DecodedEvent>, b: seq<DecodedEvent>)
    requires SameKeys(a, b) && SortedEvents(a)
    ensures SortedEvents(b)
  {
    forall i, j | 0 <= i < j < |b|
      ensures EventLe(b[i], b[j])
    {
      assert SameKey(a[i], b[i]) && SameKey(a[j], b[j]) && EventLe(a[i], a[j]);
    }
  }

  lemma InKeyOrderNext(blocks: seq<BlockBatch>, p: Key)
    requires blocks != []
    ensures var n := |blocks| - 1;
            InKeyOrder(blocks, p) <==> InKeyOrder(blocks[..n], p) && SortedEvents(Of(blocks[n].events, p))
  {
    var n := |blocks| - 1;
    assert forall i :: 0 <= i < n ==> blocks[..n][i] == blocks[i];
  }

  /** Fold order and chain order agree on a pool exactly when its events are in key order. */
  lemma {:induction false} OrdersAgree(blocks: seq<BlockBatch>, p: Key)
    ensures |Of(AllEvents(blocks), p)| == |Of(ChainEvents(blocks), p)|
    ensures InKeyOrder(blocks, p) ==> Of(AllEvents(blocks), p) == Of(ChainEvents(blocks), p)
    ensures SameKeys(Of(AllEvents(blocks), p), Of(ChainEvents(blocks), p)) ==> InKeyOrder(blocks, p)
    decreases |blocks|
  {
    if blocks != [] {
      var n := |blocks| - 1;
      var folded, ran := AllEvents(blocks[..n]), ChainEvents(blocks[..n]);
      var es := blocks[n].events;
      OrdersAgree(blocks[..n], p);
      OfConcat(folded, SortEvents(es), p);
      OfConcat(ran, es, p);
      OfSort(es, p);
      SortKeepsLength(Of(es, p));
      SortSorts(Of(es, p));
      InKeyOrderNext(blocks, p);
      hide InKeyOrder, SortedEvents, SortEvents, Of, SameKey;
      if InKeyOrder(blocks, p) {
        SortedStays(Of(es, p));
      }
      if SameKeys(Of(AllEvents(blocks), p), Of(ChainEvents(blocks), p)) {
        SplitKeys(Of(folded, p), SortEvents(Of(es, p)), Of(ran, p), Of(es, p));
        SortedByKeys(SortEvents(Of(es, p)), Of(es, p));
      }
    }
  }

  lemma SplitKeys(a: seq<DecodedEvent>, b: seq<DecodedEvent>, c: seq<DecodedEvent>, d: seq<DecodedEvent>)
    requires |a| == |c| && SameKeys(a + b, c + d)
    ensures SameKeys(a, c) && SameKeys(b, d)
  {
    forall k | 0 <= k < |a|
      ensures SameKey(a[k], c[k])
    {
      assert (a + b)[k] == a[k] && (c + d)[k] == c[k];
    }
    forall k | 0 <= k < |b|
      ensures SameKey(b[k], d[k])
    {
      assert (a + b)[|a| + k] == b[k] && (c + d)[|c| + k] == d[k];
    }
  }

  // ----- what the tables hold for a pool -----

  lemma StoredRows(blocks: seq<BlockBatch>, p: Key)
    requires ValidStream(blocks) && p in Known(blocks)
    ensures RowsFor(CleanTables(blocks).reserves, p) == ReservesHistory(Of(AllEvents(blocks), p), {p})
    ensures RowsFor(CleanTables(blocks).swaps, p) == SwapHistory(Of(AllEvents(blocks), p), {p})
    ensures RowsFor(CleanTables(blocks).liquidity, p) == LiquidityHistory(Of(AllEvents(blocks), p), {p})
  {
    assert blocks[..|blocks|] == blocks;
    hide *;
    CleanIsHistoryWhole(blocks);
    RowsForHistory(AllEvents(blocks), Known(blocks), p);
  }

  lemma CleanIsHistoryWhole(blocks: seq<BlockBatch>)
    requires ValidStream(blocks)
    ensures CleanTables(blocks).reserves == ReservesHistory(AllEvents(blocks), Known(blocks))
    ensures CleanTables(blocks).swaps == SwapHistory(AllEvents(blocks), Known(blocks))
    ensures CleanTables(blocks).liquidity == LiquidityHistory(AllEvents(blocks), Known(blocks))
  {
    assert blocks[..|blocks|] == blocks;
    CleanIsHistory(blocks, |blocks|);
    hide ValidStream, CleanTables, AllEvents, Known;
  }

  /** The reserves rows of a listed pool are those that folding in chain order would have stored,
      order and LP supplies included, if and only if in each block the (signature, index) pairs of
      the pool's events do not decrease. */
  lemma ChainOrderIff(blocks: seq<BlockBatch>, p: Key)
    requires ValidStream(blocks) && p in Known(blocks)
    ensures RowsFor(CleanTables(blocks).reserves, p)
              == RowsFor(ReservesHistory(ChainEvents(blocks), Known(blocks)), p)
            <==> InKeyOrder(blocks, p)
  {
    StoredRows(blocks, p);
    RowsForHistory(ChainEvents(blocks), Known(blocks), p);
    OrdersAgree(blocks, p);
    hide *;
    SameHistorySameKeys(AllEvents(blocks), ChainEvents(blocks), p);
  }

  lemma SameHistorySameKeys(es: seq<DecodedEvent>, fs: seq<DecodedEvent>, p: Key)
    ensures ReservesHistory(Of(es, p), {p}) == ReservesHistory(Of(fs, p), {p}) ==> SameKeys(Of(es, p), Of(fs, p))
  {
    OfMembers(es, p);
    OfMembers(fs, p);
    HistoryKeys(Of(es, p), p);
    HistoryKeys(Of(fs, p), p);
    hide Of, ReservesHistory;
  }

  /** Then the pool's swap and liquidity rows are the chain's as well. */
  lemma ChainOrderEverywhere(blocks: seq<BlockBatch>, p: Key)
    requires ValidStream(blocks) && p in Known(blocks) && InKeyOrder(blocks, p)
    ensures RowsFor(CleanTables(blocks).swaps, p)
         == RowsFor(SwapHistory(ChainEvents(blocks), Known(blocks)), p)
    ensures RowsFor(CleanTables(blocks).liquidity, p)
         == RowsFor(LiquidityHistory(ChainEvents(blocks), Known(blocks)), p)
  {
    hide *;
    StoredRows(blocks, p);
    RowsForHistory(ChainEvents(blocks), Known(blocks), p);
    OrdersAgree(blocks, p);
  }

  lemma {:induction false} LoadedIsLast(rows: seq<Keyed<Key, Reserves>>, p: Key)
    requires SortedRows(rows)
    ensures LoadedRow(rows, p) ==
              if RowsFor(rows, p) == [] then None else Some(RowsFor(rows, p)[|RowsFor(rows, p)| - 1])
    decreases |rows|
  {
    if rows != [] {
      var n := |rows| - 1;
      assert rows == rows[..n] + [rows[n]];
      LoadedNext(rows[..n], rows[n], p);
      hide LoadedRow, KeyLe;
      LoadedIsLast(rows[..n], p);
    }
  }

  /** Then the row served as the pool's latest is that of the last event the chain ran for it, with
      the LP supply that the chain's order gives. */
  lemma LatestIsChains(blocks: seq<BlockBatch>, r: Keyed<Key, Reserves>)
    requires ValidStream(blocks) && r.pool in Known(blocks) && InKeyOrder(blocks, r.pool)
    ensures var ran := Of(ChainEvents(blocks), r.pool);
            IsLatest(CleanTables(blocks).reserves, r)
            <==> ran != []
                 && r == NewReserves(r.pool, SupplyAfter(ChainEvents(blocks), r.pool), ran[|ran| - 1])
  {
    hide *;
    var p := r.pool;
    var ran := Of(ChainEvents(blocks), p);
    assert blocks[..|blocks|] == blocks;
    OfMembers(ChainEvents(blocks), p);
    SupplyOf(ChainEvents(blocks), p);
    HistoryEnds(ran, p);
    LatestMirrorsCache(blocks, |blocks|, r);
    CleanSorted(blocks, |blocks|);
    LoadedIsLast(CleanTables(blocks).reserves, p);
    StoredRows(blocks, p);
    OrdersAgree(blocks, p);
  }

  lemma HistoryEnds(es: seq<DecodedEvent>, p: Key)
    requires forall e :: e in es ==> e.event.pool == p
    ensures es == [] ==> ReservesHistory(es, {p}) == []
    ensures es != [] ==>
              var rows := ReservesHistory(es, {p});
              rows != [] && rows[|rows| - 1] == NewReserves(p, SupplyAfter(es, p), es[|es| - 1])
  {
    if es != [] {
      assert es[|es| - 1] in es;
    }
  }

  // ----- a block that is stored out of order -----

  const POOL: Key := seq(32, _ => 1)

  const CREATION := DecodedEvent("m", 0, 1, PoolCreated(POOL, POOL, POOL, POOL, POOL, 5, 5, 5, 5, 5, 5, 100, 80, 20))
  const DEPOSIT := DecodedEvent("b", 0, 2, LiquidityAdded(POOL, POOL, 5, 5, 5, 5, 92, 8, 10, 10, 200))
  const TRADE := DecodedEvent("a", 0, 2, SwapExecuted(POOL, POOL, POOL, true, 1, 1, 1, 1, 1, 11, 9))

  /** In its second block the chain ran a deposit signed "b" and after it a swap signed "a". */
  const STREAM := [BlockBatch(1, [CREATION]), BlockBatch(2, [DEPOSIT, TRADE])]

  lemma TwoBlocksValid(a: DecodedEvent, b: DecodedEvent, c: DecodedEvent)
    requires a.slot == 1 && b.slot == 2 && c.slot == 2
    requires !SameKey(a, b) && !SameKey(a, c) && !SameKey(b, c)
    requires !b.event.PoolCreated? && !c.event.PoolCreated?
    ensures ValidStream([BlockBatch(1, [a]), BlockBatch(2, [b, c])])
  {
    var blocks := [BlockBatch(1, [a]), BlockBatch(2, [b, c])];
    hide SameKey;
    assert blocks[0].events == [a] && blocks[1].events == [b, c];
    assert DistinctKeys([a]) && DistinctKeys([b, c]);
    forall i, j, e, f | 0 <= i < j < |blocks| && e in blocks[i].events && f in blocks[j].events
      ensures !SameKey(e, f) && !f.event.PoolCreated?
    {
      assert i == 0 && j == 1 && e == a && (f == b || f == c);
    }
    hide DistinctKeys;
    assert UniqueKeys(blocks);
    hide UniqueKeys;
  }

  lemma StreamIsKnown()
    ensures POOL in Known(STREAM)
  {
    KnownIffCreated(STREAM, POOL);
    hide Known;
    assert CREATION in STREAM[0].events;
    assert Creates(STREAM[0].events, POOL);
  }

  lemma StreamOrders()
    ensures AllEvents(STREAM) == [CREATION, TRADE, DEPOSIT]
    ensures ChainEvents(STREAM) == [CREATION, DEPOSIT, TRADE]
  {
    assert STREAM == [] + [STREAM[0]] + [STREAM[1]];
    ChainNext([], STREAM[0]);
    ChainNext([] + [STREAM[0]], STREAM[1]);
    assert SortEvents([CREATION]) == [CREATION] by { SortedStays([CREATION]); }
    assert SortEvents([DEPOSIT, TRADE]) == [TRADE, DEPOSIT] by {
      assert [DEPOSIT] + [TRADE] == [DEPOSIT, TRADE];
      SortFirst(DEPOSIT, [TRADE]);
      SortedStays([TRADE]);
      assert !TextLe("b", "a");
      assert [TRADE][1..] == [];
    }
    hide SortEvents;
    assert [] + [CREATION] + [TRADE, DEPOSIT] == [CREATION, TRADE, DEPOSIT];
    assert [] + [CREATION] + [DEPOSIT, TRADE] == [CREATION, DEPOSIT, TRADE];
  }

  lemma ChainNext(blocks: seq<BlockBatch>, block: BlockBatch)
    ensures AllEvents(blocks + [block]) == AllEvents(blocks) + SortEvents(block.events)
    ensures ChainEvents(blocks + [block]) == ChainEvents(blocks) + block.events
  {
    assert (blocks + [block])[..|blocks|] == blocks;
  }

  lemma ThreeRows(a: DecodedEvent, b: DecodedEvent, c: DecodedEvent, listed: set<Key>)
    requires a.event.pool == b.event.pool == c.event.pool && a.event.pool in listed
    ensures var p := a.event.pool;
            ReservesHistory([a, b, c], listed)
              == [NewReserves(p, SupplyAfter([a], p), a),
                  NewReserves(p, SupplyAfter([a, b], p), b),
                  NewReserves(p, SupplyAfter([a, b, c], p), c)]
  {
    assert ReservesHistory([], listed) == [];
    hide ReservesHistory, SupplyAfter, NewReserves;
    assert [] + [a] == [a] && [a] + [b] == [a, b] && [a, b] + [c] == [a, b, c];
    HistoryNext([], a, listed);
    HistoryNext([a], b, listed);
    HistoryNext([a, b], c, listed);
  }

  /** The writer stores the swap before the deposit, with the supply from before the deposit, and
      serves the deposit's row as the latest; the chain's order ends with the swap at supply 200. */
  lemma ReorderedBlock()
    ensures ValidStream(STREAM) && POOL in Known(STREAM) && !InKeyOrder(STREAM, POOL)
    ensures CleanTables(STREAM).reserves
         == [NewReserves(POOL, 100, CREATION), NewReserves(POOL, 100, TRADE), NewReserves(POOL, 200, DEPOSIT)]
    ensures ReservesHistory(ChainEvents(STREAM), Known(STREAM))
         == [NewReserves(POOL, 100, CREATION), NewReserves(POOL, 200, DEPOSIT), NewReserves(POOL, 200, TRADE)]
    ensures IsLatest(CleanTables(STREAM).reserves, NewReserves(POOL, 200, DEPOSIT))
  {
    StreamRows();
    StreamIsKnown();
    StreamOutOfOrder();
    assert ValidStream(STREAM) by { TwoBlocksValid(CREATION, DEPOSIT, TRADE); }
    hide ValidStream, Known, CleanTables, ReservesHistory, InKeyOrder;
    LatestOfThree();
  }

  lemma LatestOfThree()
    ensures IsLatest([NewReserves(POOL, 100, CREATION), NewReserves(POOL, 100, TRADE), NewReserves(POOL, 200, DEPOSIT)],
                     NewReserves(POOL, 200, DEPOSIT))
  {
    var rows := [NewReserves(POOL, 100, CREATION), NewReserves(POOL, 100, TRADE), NewReserves(POOL, 200, DEPOSIT)];
    assert TextLe("a", "b");
    assert rows[2] == NewReserves(POOL, 200, DEPOSIT);
  }

  lemma StreamOutOfOrder()
    ensures !InKeyOrder(STREAM, POOL)
  {
    assert !EventLe(DEPOSIT, TRADE) by { assert !TextLe("b", "a"); }
    assert STREAM[1].events == [DEPOSIT] + [TRADE];
    assert DEPOSIT.event.pool == POOL && TRADE.event.pool == POOL;
    hide EventLe, SortedEvents, Of;
    PairOutOfOrder(DEPOSIT, TRADE, POOL);
  }

  lemma PairOutOfOrder(d: DecodedEvent, t: DecodedEvent, p: Key)
    requires d.event.pool == p && t.event.pool == p && !EventLe(d, t)
    ensures !SortedEvents(Of([d] + [t], p))
  {
    hide EventLe;
    OfNext([d], t, p);
    OfNext([], d, p);
    assert [] + [d] == [d];
    var es := Of([d] + [t], p);
    assert es[0] == d && es[1] == t;
  }

  lemma StreamSupplies()
    ensures SupplyAfter([CREATION], POOL) == 100
    ensures SupplyAfter([CREATION, TRADE], POOL) == 100
    ensures SupplyAfter([CREATION, DEPOSIT], POOL) == 200
    ensures SupplyAfter([CREATION, TRADE, DEPOSIT], POOL) == 200
    ensures SupplyAfter([CREATION, DEPOSIT, TRADE], POOL) == 200
  {
    assert [] + [CREATION] == [CREATION] && [CREATION] + [TRADE] == [CREATION, TRADE];
    assert [CREATION] + [DEPOSIT] == [CREATION, DEPOSIT];
    assert [CREATION, TRADE] + [DEPOSIT] == [CREATION, TRADE, DEPOSIT];
    assert [CREATION, DEPOSIT] + [TRADE] == [CREATION, DEPOSIT, TRADE];
    hide SupplyAfter;
    SupplyNext([], CREATION, POOL);
    SupplyNext([CREATION], TRADE, POOL);
    SupplyNext([CREATION], DEPOSIT, POOL);
    SupplyNext([CREATION, TRADE], DEPOSIT, POOL);
    SupplyNext([CREATION, DEPOSIT], TRADE, POOL);
  }

  lemma StreamRows()
    ensures CleanTables(STREAM).reserves
         == [NewReserves(POOL, 100, CREATION), NewReserves(POOL, 100, TRADE), NewReserves(POOL, 200, DEPOSIT)]
    ensures ReservesHistory(ChainEvents(STREAM), Known(STREAM))
         == [NewReserves(POOL, 100, CREATION), NewReserves(POOL, 200, DEPOSIT), NewReserves(POOL, 200, TRADE)]
  {
    TwoBlocksValid(CREATION, DEPOSIT, TRADE);
    StreamIsKnown();
    StreamOrders();
    StreamSupplies();
    assert CREATION.event.pool == POOL && DEPOSIT.event.pool == POOL && TRADE.event.pool == POOL;
    hide ValidStream, Known, CleanTables, AllEvents, ChainEvents, ReservesHistory, SupplyAfter, NewReserves, SortEvents;
    CleanIsHistoryWhole(STREAM);
    ThreeRows(CREATION, TRADE, DEPOSIT, Known(STREAM));
    ThreeRows(CREATION, DEPOSIT, TRADE, Known(STREAM));
  }
}
