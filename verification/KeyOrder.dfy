/** The two orders in plain terms: in what order a block's events are folded, and which row of a pool
    is the latest. Signatures compare byte by byte, the index within a transaction upwards. */
module KeyOrder {
  import opened Wrappers
  import opened EventCodec
  import opened Indexer
  import opened Replay
  import opened LatestRows
  import opened History
  import opened ChainOrder

  /** At the first place where they differ s has the smaller character, or it ends there. */
  ghost predicate ComesBefore(s: string, t: string) {
    exists n :: DiffersAt(s, t, n)
  }

  predicate DiffersAt(s: string, t: string, n: int) {
    0 <= n <= |s| && n < |t| && s[..n] == t[..n] && (n == |s| || s[n] < t[n])
  }

  lemma {:induction false} TextLeBefore(s: string, t: string)
    requires TextLe(s, t)
    ensures s == t || ComesBefore(s, t)
    decreases |s|
  {
    if s == [] {
      assert t != [] ==> DiffersAt(s, t, 0);
    } else if s[0] == t[0] {
      TextLeBefore(s[1..], t[1..]);
      assert s == [s[0]] + s[1..] && t == [t[0]] + t[1..];
      if s[1..] != t[1..] {
        var n :| DiffersAt(s[1..], t[1..], n);
        assert s[..n + 1] == [s[0]] + s[1..][..n] && t[..n + 1] == [t[0]] + t[1..][..n];
        assert DiffersAt(s, t, n + 1);
      }
    } else {
      assert DiffersAt(s, t, 0);
    }
  }

  lemma {:induction false} BeforeTextLe(s: string, t: string, n: int)
    requires DiffersAt(s, t, n)
    ensures TextLe(s, t) && !TextLe(t, s)
    decreases |s|
  {
    if n > 0 {
      assert s[0] == s[..n][0] && t[0] == t[..n][0];
      assert s[1..][..n - 1] == s[..n][1..] && t[1..][..n - 1] == t[..n][1..];
      BeforeTextLe(s[1..], t[1..], n - 1);
    }
  }

  lemma TextLeReflexive(s: string)
    ensures TextLe(s, s)
  {
    TextTotal(s, s);
  }

  /** The order on texts is the dictionary order of their characters. */
  lemma TextLeIff(s: string, t: string)
    ensures TextLe(s, t) <==> s == t || ComesBefore(s, t)
  {
    TextLeReflexive(s);
    if TextLe(s, t) {
      TextLeBefore(s, t);
    } else if ComesBefore(s, t) {
      var n :| DiffersAt(s, t, n);
      BeforeTextLe(s, t, n);
    }
  }

  /** The pairs (s, i) and (t, j) are in order. */
  ghost predicate InOrder(s: string, i: int, t: string, j: int) {
    ComesBefore(s, t) || (s == t && i <= j)
  }

  lemma KeyLeIff(s: string, i: int, t: string, j: int)
    ensures KeyLe(s, i, t, j) <==> InOrder(s, i, t, j)
  {
    TextLeIff(s, t);
    assert !ComesBefore(s, s);
  }

  // ----- folding -----

  lemma {:induction false} InsertSortedBag(e: DecodedEvent, es: seq<DecodedEvent>)
    ensures multiset(InsertSorted(e, es)) == multiset(es) + multiset{e}
    decreases |es|
  {
    if es != [] && !EventLe(e, es[0]) {
      InsertSortedBag(e, es[1..]);
      assert es == [es[0]] + es[1..];
    }
  }

  lemma {:induction false} SortBag(es: seq<DecodedEvent>)
    ensures multiset(SortEvents(es)) == multiset(es)
    decreases |es|
  {
    if es != [] {
      SortBag(es[1..]);
      InsertSortedBag(es[0], SortEvents(es[1..]));
      assert es == [es[0]] + es[1..];
    }
  }

  /** Any two events stand in order. */
  ghost predicate KeysInOrder(es: seq<DecodedEvent>) {
    forall a, b :: 0 <= a < b < |es| ==> InOrder(es[a].signature, es[a].innerIxIdx, es[b].signature, es[b].innerIxIdx)
  }

  lemma SortedIff(es: seq<DecodedEvent>)
    ensures SortedEvents(es) <==> KeysInOrder(es)
  {
    forall a, b | 0 <= a < b < |es|
      ensures EventLe(es[a], es[b]) <==> InOrder(es[a].signature, es[a].innerIxIdx, es[b].signature, es[b].innerIxIdx)
    {
      KeyLeIff(es[a].signature, es[a].innerIxIdx, es[b].signature, es[b].innerIxIdx);
    }
    hide InOrder, EventLe;
  }

  /** A block is folded with each of its events once, signatures in dictionary order, and the events
      of one transaction by rising index. */
  lemma FoldOrder(es: seq<DecodedEvent>)
    ensures multiset(SortEvents(es)) == multiset(es) && KeysInOrder(SortEvents(es))
  {
    SortBag(es);
    SortSorts(es);
    SortedIff(SortEvents(es));
  }

  /** Events in that order already never change places, those of one transaction in particular. */
  lemma OrderedStay(es: seq<DecodedEvent>)
    ensures SortEvents(es) == es <==> KeysInOrder(es)
  {
    SortedIff(es);
    SortSorts(es);
    if KeysInOrder(es) {
      SortedStays(es);
    }
  }

  /** The condition under which a pool is stored in the chain's order, in these terms. */
  lemma InKeyOrderIff(blocks: seq<BlockBatch>, p: Key)
    ensures InKeyOrder(blocks, p) <==> forall i :: 0 <= i < |blocks| ==> KeysInOrder(Of(blocks[i].events, p))
  {
    forall i | 0 <= i < |blocks|
      ensures SortedEvents(Of(blocks[i].events, p)) <==> KeysInOrder(Of(blocks[i].events, p))
    {
      SortedIff(Of(blocks[i].events, p));
    }
    hide KeysInOrder, SortedEvents, Of;
  }

  /** A listed pool's rows are those of folding in the chain's order if and only if in each block its
      events stand in dictionary order of signatures and, within a transaction, by rising index. */
  lemma ChainOrderByKeys(blocks: seq<BlockBatch>, p: Key)
    requires ValidStream(blocks) && p in Known(blocks)
    ensures RowsFor(CleanTables(blocks).reserves, p)
              == RowsFor(ReservesHistory(ChainEvents(blocks), Known(blocks)), p)
            <==> forall i :: 0 <= i < |blocks| ==> KeysInOrder(Of(blocks[i].events, p))
  {
    hide *;
    ChainOrderIff(blocks, p);
    InKeyOrderIff(blocks, p);
  }

  // ----- the latest row -----

  /** The latest row of a pool is a stored one; no other of the pool has a higher slot, and none in
      its slot a later signature, or a higher index under the same signature. */
  lemma LatestIff(rows: seq<Keyed<Key, Reserves>>, r: Keyed<Key, Reserves>)
    ensures IsLatest(rows, r)
            <==> && r in rows
                 && forall i :: 0 <= i < |rows| && rows[i].pool == r.pool ==> NoLater(rows[i], r)
  {
    forall i | 0 <= i < |rows|
      ensures RowLe(rows[i], r) <==> NoLater(rows[i], r)
    {
      KeyLeIff(rows[i].signature, rows[i].innerIxIdx, r.signature, r.innerIxIdx);
    }
  }

  ghost predicate NoLater(a: Keyed<Key, Reserves>, b: Keyed<Key, Reserves>) {
    || a.row.lastSlot < b.row.lastSlot
    || (a.row.lastSlot == b.row.lastSlot && InOrder(a.signature, a.innerIxIdx, b.signature, b.innerIxIdx))
  }

  /** The stored reserves rows stand by rising slot, signature and index. */
  lemma StoredOrder(blocks: seq<BlockBatch>, i: nat, j: nat)
    requires ValidStream(blocks) && i < j < |CleanTables(blocks).reserves|
    ensures NoLater(CleanTables(blocks).reserves[i], CleanTables(blocks).reserves[j])
  {
    assert blocks[..|blocks|] == blocks;
    CleanSorted(blocks, |blocks|);
    var rows := CleanTables(blocks).reserves;
    assert RowLe(rows[i], rows[j]);
    hide ValidStream, CleanTables;
    KeyLeIff(rows[i].signature, rows[i].innerIxIdx, rows[j].signature, rows[j].innerIxIdx);
  }

  /** In the tables of a clean pass the row that a restart loads for a pool is the stored one that no
      other of the pool comes after. */
  lemma LoadedIff(blocks: seq<BlockBatch>, r: Keyed<Key, Reserves>)
    requires ValidStream(blocks)
    ensures var rows := CleanTables(blocks).reserves;
            LoadedRow(rows, r.pool) == Some(r)
            <==> && r in rows
                 && forall i :: 0 <= i < |rows| && rows[i].pool == r.pool ==> NoLater(rows[i], r)
  {
    assert blocks[..|blocks|] == blocks;
    hide ValidStream, CleanTables, LoadedRow, IsLatest, NoLater;
    LatestMirrorsCache(blocks, |blocks|, r);
    LatestIff(CleanTables(blocks).reserves, r);
  }

  // ----- the row a restart loads -----

  /** A restart loads, of a pool's rows in its highest slot, the one inserted last. */
  lemma {:induction false} LoadedRule(rows: seq<Keyed<Key, Reserves>>, p: Key) returns (k: int)
    requires LoadedRow(rows, p).Some?
    ensures 0 <= k < |rows| && LoadedRow(rows, p).value == rows[k] && rows[k].pool == p
    ensures forall i :: 0 <= i < |rows| && rows[i].pool == p ==> rows[i].row.lastSlot <= rows[k].row.lastSlot
    ensures forall i :: k < i < |rows| && rows[i].pool == p ==> rows[i].row.lastSlot < rows[k].row.lastSlot
    decreases |rows|
  {
    var n := |rows| - 1;
    var init := rows[..n];
    assert forall i :: 0 <= i < n ==> init[i] == rows[i];
    var before := LoadedRow(init, p);
    if rows[n].pool == p && (before.None? || before.value.row.lastSlot <= rows[n].row.lastSlot) {
      k := n;
      if before.Some? {
        var _ := LoadedRule(init, p);
      }
    } else {
      k := LoadedRule(init, p);
    }
  }
}
