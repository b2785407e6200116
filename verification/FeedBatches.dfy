/** How a feed message changes an L2 book: the loops shared by the engine
    (src/arbitrage_engine.cpp) and the Bybit client (src/bybit_client.cpp). */
module FeedBatches {
  import opened Optional
  import opened OrderBooks

  /** The batch applied without pruning, as the Bybit client does. */
  function ApplyBatch(b: Book, snap: Snapshot): Book {
    if snap.isSnapshot then Book(Fill(snap.bids), Fill(snap.asks))
    else Book(Overlay(b.bids, snap.bids), Overlay(b.asks, snap.asks))
  }

  /** The engine also drops crossed bids after a delta. */
  function ApplyFeed(b: Book, snap: Snapshot): Book {
    if snap.isSnapshot then ApplyBatch(b, snap) else Uncrossed(ApplyBatch(b, snap))
  }

  /** A price as a batch leaves it: its last mention decides (a zero quantity removes it from a
      delta), and without a mention a delta keeps it and a snapshot forgets it. */
  ghost predicate LeftByBatch(before: Levels, levels: seq<PriceLevel>, isSnapshot: bool, p: Price, after: Option<PriceLevel>) {
    if Writes(levels, p) then
      forall i: nat :: IsLastWrite(levels, p, i) ==>
        after == if !isSnapshot && levels[i].quantity == 0.0 then None else Some(levels[i])
    else after == if isSnapshot then None else Lookup(before, p)
  }

  /** After any message the asks are what the batch leaves; after a delta the bids are what the
      batch leaves, restricted to prices strictly below every ask. */
  lemma FeedMeaning(b: Book, snap: Snapshot, p: Price)
    ensures LeftByBatch(b.asks, snap.asks, snap.isSnapshot, p, Lookup(ApplyFeed(b, snap).asks, p))
    ensures exists bid :: LeftByBatch(b.bids, snap.bids, snap.isSnapshot, p, bid)
              && Lookup(ApplyFeed(b, snap).bids, p) ==
                 if !snap.isSnapshot && exists q :: q in ApplyFeed(b, snap).asks && q <= p then None else bid
  {
    SideLeft(b.asks, snap.asks, snap.isSnapshot, p);
    SideLeft(b.bids, snap.bids, snap.isSnapshot, p);
    UncrossedMeaning(ApplyBatch(b, snap));
    var bid := Lookup(ApplyBatch(b, snap).bids, p);
    assert LeftByBatch(b.bids, snap.bids, snap.isSnapshot, p, bid);
  }

  lemma SideLeft(m: Levels, levels: seq<PriceLevel>, isSnapshot: bool, p: Price)
    ensures LeftByBatch(m, levels, isSnapshot, p, Lookup(if isSnapshot then Fill(levels) else Overlay(m, levels), p))
  {
    if Writes(levels, p) {
      forall i: nat | IsLastWrite(levels, p, i)
        ensures Lookup(if isSnapshot then Fill(levels) else Overlay(m, levels), p)
             == if !isSnapshot && levels[i].quantity == 0.0 then None else Some(levels[i])
      {
        if isSnapshot { FillLastWrite(levels, p, i); } else { OverlayLastWrite(m, levels, p, i); }
      }
    } else {
      if isSnapshot { FillUntouched(levels, p); } else { OverlayUntouched(m, levels, p); }
    }
  }

  /** A delta always leaves a book whose spread is not negative. */
  lemma DeltaLeavesValidSpread(b: Book, snap: Snapshot)
    requires Keyed(b.bids) && Keyed(b.asks) && !snap.isSnapshot
    ensures NotCrossed(ApplyFeed(b, snap)) && SpreadBps(ApplyFeed(b, snap)) >= 0.0
  {
    OverlayKeyed(b.bids, snap.bids);
    OverlayKeyed(b.asks, snap.asks);
    UncrossedMeaning(ApplyBatch(b, snap));
    UncrossedSpread(ApplyFeed(b, snap));
  }

  /** clear() and set_level for every level. */
  method ReplaceBook(book: OrderBook, snap: Snapshot, now: nat)
    requires book.Valid() && snap.isSnapshot
    modifies book`bids, book`asks, book`lastUpdateMs
    ensures book.Valid() && book.Contents() == ApplyBatch(old(book.Contents()), snap)
    ensures book.lastUpdateMs == now
  {
    book.Clear(now);
    for i := 0 to |snap.bids|
      invariant book.Valid() && book.Contents() == Book(Fill(snap.bids[..i]), map[]) && book.lastUpdateMs == now
    {
      var l := snap.bids[i];
      book.SetLevelAt(Bid, l.price, l.quantity, l.orderCount, now);
      assert snap.bids[..i + 1][..i] == snap.bids[..i];
    }
    assert snap.bids[..|snap.bids|] == snap.bids;
    for i := 0 to |snap.asks|
      invariant book.Valid() && book.Contents() == Book(Fill(snap.bids), Fill(snap.asks[..i])) && book.lastUpdateMs == now
    {
      var l := snap.asks[i];
      book.SetLevelAt(Ask, l.price, l.quantity, l.orderCount, now);
      assert snap.asks[..i + 1][..i] == snap.asks[..i];
    }
    assert snap.asks[..|snap.asks|] == snap.asks;
  }

  /** Level by level: a zero quantity deletes, any other sets. */
  method AmendBook(book: OrderBook, snap: Snapshot, now: nat)
    requires book.Valid() && !snap.isSnapshot
    modifies book`bids, book`asks, book`lastUpdateMs
    ensures book.Valid() && book.Contents() == ApplyBatch(old(book.Contents()), snap)
    ensures book.lastUpdateMs == if snap.bids == [] && snap.asks == [] then old(book.lastUpdateMs) else now
  {
    ghost var before := book.Contents();
    for i := 0 to |snap.bids|
      invariant book.Valid() && book.Contents() == Book(Overlay(before.bids, snap.bids[..i]), before.asks)
      invariant book.lastUpdateMs == if i == 0 then old(book.lastUpdateMs) else now
    {
      var l := snap.bids[i];
      if l.quantity == 0.0 {
        book.DeleteLevelAt(Bid, l.price, now);
      } else {
        book.SetLevelAt(Bid, l.price, l.quantity, l.orderCount, now);
      }
      assert snap.bids[..i + 1][..i] == snap.bids[..i];
    }
    assert snap.bids[..|snap.bids|] == snap.bids;
    for i := 0 to |snap.asks|
      invariant book.Valid()
      invariant book.Contents() == Book(Overlay(before.bids, snap.bids), Overlay(before.asks, snap.asks[..i]))
      invariant book.lastUpdateMs == if snap.bids == [] && i == 0 then old(book.lastUpdateMs) else now
    {
      var l := snap.asks[i];
      if l.quantity == 0.0 {
        book.DeleteLevelAt(Ask, l.price, now);
      } else {
        book.SetLevelAt(Ask, l.price, l.quantity, l.orderCount, now);
      }
      assert snap.asks[..i + 1][..i] == snap.asks[..i];
    }
    assert snap.asks[..|snap.asks|] == snap.asks;
  }

  /** Every level call stamps the book; only an empty delta leaves the stamp alone. */
  predicate Touches(snap: Snapshot) {
    snap.isSnapshot || snap.bids != [] || snap.asks != []
  }

  /** One feed message into one book, as the engine applies it. */
  method FeedBook(book: OrderBook, snap: Snapshot, now: nat)
    requires book.Valid()
    modifies book`bids, book`asks, book`lastUpdateMs
    ensures book.Valid() && book.Contents() == ApplyFeed(old(book.Contents()), snap)
    ensures book.lastUpdateMs == if Touches(snap) then now else old(book.lastUpdateMs)
  {
    if snap.isSnapshot {
      ReplaceBook(book, snap, now);
    } else {
      AmendBook(book, snap, now);
      book.PruneCrossed();
    }
  }
}
