/** indexer/src/domain/reserves.rs: the row `latest_for_pools` serves is the last one the writer
    folded in, and the one its cache mirrors. */
module LatestRows {
  import opened Wrappers
  import opened EventCodec
  import opened Indexer
  import opened Replay

  // ----- byte order is a total order -----

  lemma {:induction false} TextTotal(a: string, b: string)
    ensures TextLe(a, b) || TextLe(b, a)
    ensures TextLe(a, b) && TextLe(b, a) ==> a == b
    decreases |a|
  {
    if a != [] && b != [] && a[0] == b[0] {
      TextTotal(a[1..], b[1..]);
      assert a == [a[0]] + a[1..] && b == [b[0]] + b[1..];
    }
  }

  lemma {:induction false} TextTransitive(a: string, b: string, c: string)
    requires TextLe(a, b) && TextLe(b, c)
    ensures TextLe(a, c)
    decreases |a|
  {
    if a != [] && a[0] == b[0] && b[0] == c[0] {
      TextTransitive(a[1..], b[1..], c[1..]);
    }
  }

  lemma EventTotal(a: DecodedEvent, b: DecodedEvent)
    ensures EventLe(a, b) || EventLe(b, a)
  {
    TextTotal(a.signature, b.signature);
  }

  lemma EventTransitive(a: DecodedEvent, b: DecodedEvent, c: DecodedEvent)
    requires EventLe(a, b) && EventLe(b, c)
    ensures EventLe(a, c)
  {
    if a.signature != b.signature && b.signature != c.signature {
      TextTransitive(a.signature, b.signature, c.signature);
      TextTotal(a.signature, b.signature);
    }
  }

  // ----- the sort sorts -----

  ghost predicate SortedEvents(es: seq<DecodedEvent>) {
    forall a, b :: 0 <= a < b < |es| ==> EventLe(es[a], es[b])
  }

  lemma {:induction false} InsertSortedSorts(e: DecodedEvent, es: seq<DecodedEvent>)
    requires SortedEvents(es)
    ensures SortedEvents(InsertSorted(e, es))
    decreases |es|
  {
    if es != [] {
      if EventLe(e, es[0]) {
        forall b | 0 <= b < |es|
          ensures EventLe(e, es[b])
        {
          if b > 0 {
            EventTransitive(e, es[0], es[b]);
          }
        }
      } else {
        var rest := InsertSorted(e, es[1..]);
        InsertSortedSorts(e, es[1..]);
        InsertSortedMembers(e, es[1..]);
        EventTotal(e, es[0]);
        forall b | 0 <= b < |rest|
          ensures EventLe(es[0], rest[b])
        {
          assert rest[b] in rest;
        }
      }
    }
  }

  lemma {:induction false} SortSorts(es: seq<DecodedEvent>)
    ensures SortedEvents(SortEvents(es))
    decreases |es|
  {
    if es != [] {
      SortSorts(es[1..]);
      InsertSortedSorts(es[0], SortEvents(es[1..]));
    }
  }

  // ----- the table is in (slot, signature, index) order -----

  ghost predicate SortedRows(rows: seq<Keyed<Key, Reserves>>) {
    forall i, j :: 0 <= i < j < |rows| ==> RowLe(rows[i], rows[j])
  }

  ghost predicate AllInSlot(rows: seq<Keyed<Key, Reserves>>, slot: int) {
    forall i :: 0 <= i < |rows| ==> rows[i].row.lastSlot == slot
  }

  lemma {:induction false} Pass2Sorted(es: seq<DecodedEvent>, known: set<Key>, cache: LpCache, slot: int)
    requires SortedEvents(es) && forall e :: e in es ==> e.slot == slot
    ensures AllInSlot(Pass2(es, known, cache).reserves, slot)
    ensures SortedRows(Pass2(es, known, cache).reserves)
    decreases |es|
  {
    if es != [] {
      var before, e := es[..|es| - 1], es[|es| - 1];
      assert before + [e] == es;
      assert SortedEvents(before) && e in es && forall f :: f in before ==> f in es;
      Pass2Next(before, e, known, cache);
      hide Pass2, EventLe, SortedEvents, SortedRows, AllInSlot;
      Pass2Sorted(before, known, cache, slot);
      Pass2Rows(before, known, cache);
      hide *;
      GrownSorted(es, known, Pass2(before, known, cache), Pass2(es, known, cache), slot);
    }
  }

  lemma GrownSorted(es: seq<DecodedEvent>, known: set<Key>, b: Batch<Key>, b': Batch<Key>, slot: int)
    requires es != [] && SortedEvents(es) && es[|es| - 1].slot == slot
    requires Grown(b, b', es[|es| - 1], known) && RowsOf(b.reserves, es[..|es| - 1], known, ReservesTable)
    requires AllInSlot(b.reserves, slot) && SortedRows(b.reserves)
    ensures AllInSlot(b'.reserves, slot) && SortedRows(b'.reserves)
  {
    var e := es[|es| - 1];
    hide CachedLp, SortedRows, SortedEvents, RowsOf, RowLe;
    if e.event.pool in known {
      var r := NewReserves(e.event.pool, CachedLp(b'.cache, e.event.pool), e);
      forall i | 0 <= i < |b.reserves|
        ensures RowLe(b.reserves[i], r)
      {
        RowBeforeEvent(b.reserves, i, es, known, r);
      }
      LastRowLargest(b.reserves, r);
    }
  }

  lemma LastRowLargest(rows: seq<Keyed<Key, Reserves>>, r: Keyed<Key, Reserves>)
    requires SortedRows(rows) && forall i :: 0 <= i < |rows| ==> RowLe(rows[i], r)
    ensures SortedRows(rows + [r])
  {
  }

  /** Rows of earlier events come before the row of the last event. */
  lemma RowBeforeEvent(rows: seq<Keyed<Key, Reserves>>, i: nat, es: seq<DecodedEvent>, known: set<Key>,
                       r: Keyed<Key, Reserves>)
    requires es != [] && SortedEvents(es) && i < |rows|
    requires RowsOf(rows, es[..|es| - 1], known, ReservesTable)
    requires rows[i].row.lastSlot == r.row.lastSlot
    requires r.signature == es[|es| - 1].signature && r.innerIxIdx == es[|es| - 1].innerIxIdx
    ensures RowLe(rows[i], r)
  {
    var before := es[..|es| - 1];
    assert HasWanted(rows[i], before, known, ReservesTable);
    var f :| Wanted(f, before, known, ReservesTable) && rows[i].signature == f.signature && rows[i].innerIxIdx == f.innerIxIdx;
    var a :| 0 <= a < |before| && before[a] == f;
    assert EventLe(es[a], es[|es| - 1]);
  }

  lemma BlockSorted(block: BlockBatch, known: set<Key>, cache: LpCache)
    requires forall a :: 0 <= a < |block.events| ==> block.events[a].slot == block.slot
    ensures AllInSlot(Pass2(SortEvents(block.events), known, cache).reserves, block.slot)
    ensures SortedRows(Pass2(SortEvents(block.events), known, cache).reserves)
  {
    SortSorts(block.events);
    SortMembers(block.events);
    forall e | e in SortEvents(block.events)
      ensures e.slot == block.slot
    {
      var a :| 0 <= a < |block.events| && block.events[a] == e;
    }
    Pass2Sorted(SortEvents(block.events), known, cache, block.slot);
  }

  /** The stored reserves rows stand in the order the writer folded them. */
  lemma {:induction false} CleanSorted(blocks: seq<BlockBatch>, c: nat)
    requires ValidStream(blocks) && c <= |blocks|
    ensures SortedRows(CleanTables(blocks[..c]).reserves)
    decreases c
  {
    if c == 0 {
      assert blocks[..0] == [];
    } else {
      CleanSorted(blocks, c - 1);
      NextSorted(blocks, c - 1);
    }
  }

  lemma NextSorted(blocks: seq<BlockBatch>, c: nat)
    requires ValidStream(blocks) && c < |blocks|
    requires SortedRows(CleanTables(blocks[..c]).reserves)
    ensures SortedRows(CleanTables(blocks[..c + 1]).reserves)
  {
    var block := blocks[c];
    var rows := CleanTables(blocks[..c]).reserves;
    assert c > 0 ==> blocks[c - 1].slot < block.slot;
    BlockSorted(block, Known(blocks[..c + 1]), CleanCache(blocks[..c]));
    CleanStep(blocks, c);
    var more := NewBatch(CleanTables(blocks[..c]), CleanCache(blocks[..c]), block).reserves;
    hide SortedRows, AllInSlot, ValidStream, CleanCache, Pass2, SortEvents, AllFromStream, Fresh;
    CleanLoads(blocks, c);
    FreshBlock(blocks, c);
    assert SlotsUpTo(rows, block.slot - 1);
    JoinSorted(rows, more, block.slot);
  }

  lemma JoinSorted(rows: seq<Keyed<Key, Reserves>>, more: seq<Keyed<Key, Reserves>>, slot: int)
    requires SortedRows(rows) && SortedRows(more)
    requires SlotsUpTo(rows, slot - 1) && AllInSlot(more, slot)
    ensures SortedRows(rows + more)
  {
  }

  // ----- the query -----

  lemma RowAntisymmetric(a: Keyed<Key, Reserves>, b: Keyed<Key, Reserves>)
    requires RowLe(a, b) && RowLe(b, a)
    ensures a.signature == b.signature && a.innerIxIdx == b.innerIxIdx
  {
    TextTotal(a.signature, b.signature);
  }

  lemma LoadedNext(rows: seq<Keyed<Key, Reserves>>, last: Keyed<Key, Reserves>, p: Key)
    requires forall i :: 0 <= i < |rows| ==> RowLe(rows[i], last)
    ensures LoadedRow(rows + [last], p) == if last.pool == p then Some(last) else LoadedRow(rows, p)
  {
    assert (rows + [last])[..|rows|] == rows;
    var before := LoadedRow(rows, p);
    if before.Some? {
      var j :| 0 <= j < |rows| && rows[j] == before.value;
      assert RowLe(rows[j], last);
    }
  }

  lemma {:induction false} LoadedIsHighest(rows: seq<Keyed<Key, Reserves>>, p: Key, i: nat)
    requires SortedRows(rows) && i < |rows| && rows[i].pool == p
    ensures LoadedRow(rows, p).Some? && RowLe(rows[i], LoadedRow(rows, p).value)
    decreases |rows|
  {
    var n := |rows| - 1;
    assert rows == rows[..n] + [rows[n]];
    LoadedNext(rows[..n], rows[n], p);
    hide LoadedRow, KeyLe;
    if i < n {
      assert rows[..n][i] == rows[i];
      LoadedIsHighest(rows[..n], p, i);
    } else {
      RowReflexive(rows[n]);
    }
  }

  lemma RowReflexive(r: Keyed<Key, Reserves>)
    ensures RowLe(r, r)
  {
  }

  /** In a table sorted by slot, signature and index, without repeated keys, the highest row of a
      pool and the row loaded at a restart are one and the same. */
  lemma LatestIsLoaded(rows: seq<Keyed<Key, Reserves>>, r: Keyed<Key, Reserves>)
    requires SortedRows(rows) && Fresh([], rows)
    ensures IsLatest(rows, r) <==> LoadedRow(rows, r.pool) == Some(r)
  {
    var loaded := LoadedRow(rows, r.pool);
    forall i | 0 <= i < |rows| && rows[i].pool == r.pool
      ensures loaded.Some? && RowLe(rows[i], loaded.value)
    {
      LoadedIsHighest(rows, r.pool, i);
    }
    hide RowLe, SortedRows;
    if IsLatest(rows, r) {
      var i :| 0 <= i < |rows| && rows[i] == r;
      var j :| 0 <= j < |rows| && rows[j] == loaded.value;
      RowAntisymmetric(r, loaded.value);
    }
  }

  /** After every cleanly written block, `latest_for_pools` has exactly one answer for a pool with
      rows: the row the writer folded in last, whose LP supply is the one in the writer's cache.
      A database that orders text byte by byte is assumed. */
  lemma LatestMirrorsCache(blocks: seq<BlockBatch>, c: nat, r: Keyed<Key, Reserves>)
    requires ValidStream(blocks) && c <= |blocks|
    ensures IsLatest(CleanTables(blocks[..c]).reserves, r)
            <==> LoadedRow(CleanTables(blocks[..c]).reserves, r.pool) == Some(r)
    ensures IsLatest(CleanTables(blocks[..c]).reserves, r) ==>
              r.row.lpSupply == CachedLp(CleanCache(blocks[..c]), r.pool)
  {
    CleanSorted(blocks, c);
    CleanLoads(blocks, c);
    CleanNoRowTwice(blocks[..c]);
    hide ValidStream, CleanTables, CleanCache, AllFromStream, SlotsUpTo, SortedRows, Fresh, IsLatest, LoadedRow;
    var rows := CleanTables(blocks[..c]).reserves;
    LatestIsLoaded(rows, r);
    assert LoadedLp(rows, r.pool) == CachedLp(CleanCache(blocks[..c]), r.pool);
  }
}
