/** The tables without any cache: an independent account of what a clean pass must have stored,
    read off the list of events alone. */
module History {
  import opened Wrappers
  import opened EventCodec
  import opened Indexer
  import opened Replay

  /** All events in the order the writer folds them. */
  function AllEvents(blocks: seq<BlockBatch>): seq<DecodedEvent> {
    if blocks == [] then []
    else AllEvents(blocks[..|blocks| - 1]) + SortEvents(blocks[|blocks| - 1].events)
  }

  /** A pool's LP supply after some events: the one its last creation, deposit or withdrawal
      reported, whatever swaps came since. */
  function SupplyAfter(es: seq<DecodedEvent>, p: Key): int {
    var s := LastSet(es, p);
    if s.Some? then s.value else 0
  }

  /** One reserves row per event of a listed pool, carrying the supply after that event. */
  function ReservesHistory(es: seq<DecodedEvent>, listed: set<Key>): seq<Keyed<Key, Reserves>> {
    if es == [] then []
    else
      var e := es[|es| - 1];
      ReservesHistory(es[..|es| - 1], listed)
      + if e.event.pool in listed then [NewReserves(e.event.pool, SupplyAfter(es, e.event.pool), e)] else []
  }

  function SwapHistory(es: seq<DecodedEvent>, listed: set<Key>): seq<Keyed<Key, Swap>> {
    if es == [] then []
    else
      var e := es[|es| - 1];
      SwapHistory(es[..|es| - 1], listed)
      + if e.event.pool in listed && e.event.SwapExecuted? then [NewSwap(e.event.pool, e)] else []
  }

  function LiquidityHistory(es: seq<DecodedEvent>, listed: set<Key>): seq<Keyed<Key, Liquidity>> {
    if es == [] then []
    else
      var e := es[|es| - 1];
      LiquidityHistory(es[..|es| - 1], listed)
      + if e.event.pool in listed && (e.event.LiquidityAdded? || e.event.LiquidityRemoved?)
        then [NewLiquidity(e.event.pool, e)] else []
  }

  /** The tables hold exactly these rows, in this order. */
  ghost predicate Holds(t: Tables, es: seq<DecodedEvent>, listed: set<Key>) {
    && t.reserves == ReservesHistory(es, listed)
    && t.swaps == SwapHistory(es, listed)
    && t.liquidity == LiquidityHistory(es, listed)
  }

  /** The cache has every listed pool's last reported supply. */
  ghost predicate Caches(cache: LpCache, es: seq<DecodedEvent>, listed: set<Key>) {
    forall p :: p in listed ==> CachedLp(cache, p) == SupplyAfter(es, p)
  }

  lemma HistoryNext(es: seq<DecodedEvent>, e: DecodedEvent, listed: set<Key>)
    ensures var p := e.event.pool;
            && ReservesHistory(es + [e], listed) == ReservesHistory(es, listed)
                 + (if p in listed then [NewReserves(p, SupplyAfter(es + [e], p), e)] else [])
            && SwapHistory(es + [e], listed) == SwapHistory(es, listed)
                 + (if p in listed && e.event.SwapExecuted? then [NewSwap(p, e)] else [])
            && LiquidityHistory(es + [e], listed) == LiquidityHistory(es, listed)
                 + (if p in listed && (e.event.LiquidityAdded? || e.event.LiquidityRemoved?)
                    then [NewLiquidity(p, e)] else [])
  {
    assert (es + [e])[..|es|] == es;
  }

  lemma SupplyNext(es: seq<DecodedEvent>, e: DecodedEvent, p: Key)
    ensures SupplyAfter(es + [e], p) ==
              if e.event.pool == p && !e.event.SwapExecuted? then AsI64(e.event.lpSupplyAfter)
              else SupplyAfter(es, p)
  {
    assert (es + [e])[..|es|] == es;
  }

  /** Pass 2 over es, after `before`, builds the next stretch of the history. */
  lemma {:induction false} Pass2Continues(before: seq<DecodedEvent>, es: seq<DecodedEvent>, listed: set<Key>, cache: LpCache)
    requires Caches(cache, before, listed)
    ensures var b := Pass2(es, listed, cache);
            && ReservesHistory(before + es, listed) == ReservesHistory(before, listed) + b.reserves
            && SwapHistory(before + es, listed) == SwapHistory(before, listed) + b.swaps
            && LiquidityHistory(before + es, listed) == LiquidityHistory(before, listed) + b.liquidity
            && Caches(b.cache, before + es, listed)
    decreases |es|
  {
    if es == [] {
      assert before + es == before;
    } else {
      var init, e := es[..|es| - 1], es[|es| - 1];
      assert es == init + [e] && before + es == before + init + [e];
      Pass2Next(init, e, listed, cache);
      hide *;
      Pass2Continues(before, init, listed, cache);
      Continues(before, init, e, listed, Pass2(init, listed, cache), Pass2(es, listed, cache));
    }
  }

  /** One event more, on either side. */
  lemma Continues(before: seq<DecodedEvent>, init: seq<DecodedEvent>, e: DecodedEvent, listed: set<Key>,
                  b: Batch<Key>, b': Batch<Key>)
    requires Grown(b, b', e, listed) && Caches(b.cache, before + init, listed)
    requires ReservesHistory(before + init, listed) == ReservesHistory(before, listed) + b.reserves
    requires SwapHistory(before + init, listed) == SwapHistory(before, listed) + b.swaps
    requires LiquidityHistory(before + init, listed) == LiquidityHistory(before, listed) + b.liquidity
    ensures ReservesHistory(before + init + [e], listed) == ReservesHistory(before, listed) + b'.reserves
    ensures SwapHistory(before + init + [e], listed) == SwapHistory(before, listed) + b'.swaps
    ensures LiquidityHistory(before + init + [e], listed) == LiquidityHistory(before, listed) + b'.liquidity
    ensures Caches(b'.cache, before + init + [e], listed)
  {
    var done, p := before + init, e.event.pool;
    hide ReservesHistory, SwapHistory, LiquidityHistory, SupplyAfter, CachedLp, AsI64;
    HistoryNext(done, e, listed);
    forall q | q in listed
      ensures CachedLp(b'.cache, q) == SupplyAfter(done + [e], q)
    {
      SupplyNext(done, e, q);
    }
    var lp := CachedLp(b'.cache, p);
    StretchNext(ReservesHistory(before, listed), b.reserves, p in listed, NewReserves(p, lp, e));
    if e.event.SwapExecuted? {
      StretchNext(SwapHistory(before, listed), b.swaps, p in listed, NewSwap(p, e));
    }
    if e.event.LiquidityAdded? || e.event.LiquidityRemoved? {
      StretchNext(LiquidityHistory(before, listed), b.liquidity, p in listed, NewLiquidity(p, e));
    }
  }

  lemma StretchNext<R>(h: seq<R>, rows: seq<R>, added: bool, r: R)
    ensures (h + rows) + (if added then [r] else []) == h + (if added then rows + [r] else rows)
  {
  }

  // ----- pools listed later have no earlier events -----

  ghost predicate Mentions(es: seq<DecodedEvent>, p: Key) {
    exists e :: e in es && e.event.pool == p
  }

  lemma {:induction false} EventsOfBlocks(blocks: seq<BlockBatch>, e: DecodedEvent) returns (i: nat)
    requires e in AllEvents(blocks)
    ensures i < |blocks| && e in blocks[i].events
    decreases |blocks|
  {
    var n := |blocks| - 1;
    SortMembers(blocks[n].events);
    if e in SortEvents(blocks[n].events) {
      i := n;
    } else {
      i := EventsOfBlocks(blocks[..n], e);
    }
  }

  lemma NewlyListedUnmentioned(blocks: seq<BlockBatch>, c: nat, p: Key)
    requires ValidStream(blocks) && c < |blocks|
    requires p in Known(blocks[..c + 1]) && p !in Known(blocks[..c])
    ensures !Mentions(AllEvents(blocks[..c]), p)
  {
    if Mentions(AllEvents(blocks[..c]), p) {
      var e :| e in AllEvents(blocks[..c]) && e.event.pool == p;
      var i := EventsOfBlocks(blocks[..c], e);
      KnownInTime(blocks, c + 1, i, e);
      KnownInTime(blocks, c, i, e);
    }
  }

  lemma {:induction false} UnmentionedChangesNothing(es: seq<DecodedEvent>, listed: set<Key>, more: set<Key>)
    requires listed <= more && forall p :: p in more - listed ==> !Mentions(es, p)
    ensures ReservesHistory(es, more) == ReservesHistory(es, listed)
    ensures SwapHistory(es, more) == SwapHistory(es, listed)
    ensures LiquidityHistory(es, more) == LiquidityHistory(es, listed)
    decreases |es|
  {
    if es != [] {
      var init, e := es[..|es| - 1], es[|es| - 1];
      assert Mentions(es, e.event.pool) by { assert e in es; }
      forall p | p in more - listed
        ensures !Mentions(init, p)
      {
        assert forall f :: f in init ==> f in es;
      }
      UnmentionedChangesNothing(init, listed, more);
    }
  }

  lemma {:induction false} UnmentionedUnset(es: seq<DecodedEvent>, p: Key)
    requires !Mentions(es, p)
    ensures LastSet(es, p) == None
    decreases |es|
  {
    if es != [] {
      var init := es[..|es| - 1];
      assert es[|es| - 1] in es;
      assert forall f :: f in init ==> f in es;
      UnmentionedUnset(init, p);
    }
  }

  /** A pool that is not listed has nothing cached. */
  lemma {:induction false} UnlistedUncached(blocks: seq<BlockBatch>, c: nat, p: Key)
    requires c <= |blocks| && p !in Known(blocks[..c])
    ensures CachedLp(CleanCache(blocks[..c]), p) == 0
    decreases c
  {
    if c == 0 {
      assert blocks[..0] == [];
    } else {
      KnownGrows(blocks, c - 1, c);
      UnlistedUncached(blocks, c - 1, p);
      CleanStep(blocks, c - 1);
      Pass2Cache(SortEvents(blocks[c - 1].events), Known(blocks[..c]), CleanCache(blocks[..c - 1]), p);
    }
  }

  lemma NextListed(blocks: seq<BlockBatch>, c: nat)
    requires ValidStream(blocks) && c < |blocks|
    requires Holds(CleanTables(blocks[..c]), AllEvents(blocks[..c]), Known(blocks[..c]))
    requires Caches(CleanCache(blocks[..c]), AllEvents(blocks[..c]), Known(blocks[..c]))
    ensures Holds(CleanTables(blocks[..c]), AllEvents(blocks[..c]), Known(blocks[..c + 1]))
    ensures Caches(CleanCache(blocks[..c]), AllEvents(blocks[..c]), Known(blocks[..c + 1]))
  {
    var es, listed, more := AllEvents(blocks[..c]), Known(blocks[..c]), Known(blocks[..c + 1]);
    KnownGrows(blocks, c, c + 1);
    forall p | p in more && p !in listed
      ensures !Mentions(es, p) && CachedLp(CleanCache(blocks[..c]), p) == SupplyAfter(es, p)
    {
      NewlyListedUnmentioned(blocks, c, p);
      UnmentionedUnset(es, p);
      UnlistedUncached(blocks, c, p);
    }
    hide Known, AllEvents, CleanTables, CleanCache, Mentions, SupplyAfter;
    UnmentionedChangesNothing(es, listed, more);
  }

  /** A clean pass stores, in fold order, one reserves row for every event of every pool whose
      creation it saw, each with the LP supply last reported for its pool, and one swap or
      liquidity row for every swap or liquidity event. */
  lemma {:induction false} CleanIsHistory(blocks: seq<BlockBatch>, c: nat)
    requires ValidStream(blocks) && c <= |blocks|
    ensures Holds(CleanTables(blocks[..c]), AllEvents(blocks[..c]), Known(blocks[..c]))
    ensures Caches(CleanCache(blocks[..c]), AllEvents(blocks[..c]), Known(blocks[..c]))
    decreases c
  {
    if c == 0 {
      assert blocks[..0] == [];
    } else {
      hide ValidStream, Holds, Caches, Known, CleanTables, CleanCache, AllEvents, SupplyAfter;
      CleanIsHistory(blocks, c - 1);
      NextHistory(blocks, c - 1);
    }
  }

  lemma NextHistory(blocks: seq<BlockBatch>, c: nat)
    requires ValidStream(blocks) && c < |blocks|
    requires Holds(CleanTables(blocks[..c]), AllEvents(blocks[..c]), Known(blocks[..c]))
    requires Caches(CleanCache(blocks[..c]), AllEvents(blocks[..c]), Known(blocks[..c]))
    ensures Holds(CleanTables(blocks[..c + 1]), AllEvents(blocks[..c + 1]), Known(blocks[..c + 1]))
    ensures Caches(CleanCache(blocks[..c + 1]), AllEvents(blocks[..c + 1]), Known(blocks[..c + 1]))
  {
    var before, es := AllEvents(blocks[..c]), SortEvents(blocks[c].events);
    assert AllEvents(blocks[..c + 1]) == before + es by {
      assert blocks[..c + 1][..c] == blocks[..c];
    }
    CleanStep(blocks, c);
    BatchIsPass2(blocks, c);
    hide ValidStream, AllEvents, SortEvents, CleanCache, CleanTables, Known, SupplyAfter, AllFromStream, Fresh, SlotsUpTo,
         NewBatch, Pass2, LoadedLp, Caches, ReservesHistory, SwapHistory, LiquidityHistory;
    NextListed(blocks, c);
    CleanLoads(blocks, c);
    FreshBlock(blocks, c);
    Pass2Continues(before, es, Known(blocks[..c + 1]), CleanCache(blocks[..c]));
  }

  lemma BatchIsPass2(blocks: seq<BlockBatch>, c: nat)
    requires c < |blocks|
    ensures NewBatch(CleanTables(blocks[..c]), CleanCache(blocks[..c]), blocks[c])
         == Pass2(SortEvents(blocks[c].events), Known(blocks[..c + 1]), CleanCache(blocks[..c]))
  {
    CleanStep(blocks, c);
  }
}
