/** The answer of the arbitrage scan in the terms of the books alone (src/arbitrage_engine.cpp):
    which pairs of books it reports, and what every figure of a report means. */
module ArbitrageAnswer {
  import opened OrderBooks
  import opened ArbitrageScan

  ghost predicate BestAskOf(b: Book, p: Price) {
    p in b.asks && forall q :: q in b.asks ==> p <= q
  }

  ghost predicate BestBidOf(b: Book, p: Price) {
    p in b.bids && forall q :: q in b.bids ==> q <= p
  }

  /** Bought at the best ask of one book and sold at the best bid of the other, a unit of money
      grows by at least minProfitBps ten-thousandths, and there is something to trade. */
  ghost predicate PaysAt(buy: Book, sell: Book, ask: Price, bid: Price, minProfitBps: real) {
    && BestAskOf(buy, ask) && BestBidOf(sell, bid)
    && bid > ask > 0.0 && 10000.0 * bid >= ask * (10000.0 + minProfitBps)
    && buy.asks[ask].quantity > 0.0 && sell.bids[bid].quantity > 0.0
  }

  /** Last changed at most half a second before `now`, or stamped later than it. */
  predicate Recent(b: LiveBook, now: nat) { now <= b.updatedMs + 500 }

  ghost predicate Pays(books: map<BookId, LiveBook>, buy: BookId, sell: BookId,
                       normalize: string -> string, minProfitBps: real, now: nat) {
    && buy in books && sell in books && buy != sell
    && Recent(books[buy], now) && Recent(books[sell], now)
    && normalize(books[buy].symbol) == normalize(books[sell].symbol)
    && exists ask, bid :: PaysAt(books[buy].book, books[sell].book, ask, bid, minProfitBps)
  }

  /** What each figure of a report says of the two books and their best prices. */
  ghost predicate FiguresAt(o: Opportunity, buy: LiveBook, sell: LiveBook, ask: Price, bid: Price) {
    && BestAskOf(buy.book, ask) && BestBidOf(sell.book, bid)
    && o.buyExchange == buy.exchange && o.sellExchange == sell.exchange
    && o.buyPrice == ask && o.sellPrice == bid && 10000.0 * bid == ask * (10000.0 + o.profitBps)
    && var (offered, wanted) := (buy.book.asks[ask].quantity, sell.book.bids[bid].quantity);
       o.maxQuantity <= offered && o.maxQuantity <= wanted && (o.maxQuantity == offered || o.maxQuantity == wanted)
  }

  ghost predicate Figures(o: Opportunity, buy: LiveBook, sell: LiveBook, normalize: string -> string, now: nat) {
    && o.symbol == normalize(buy.symbol) && o.timestampMs == now
    && exists ask, bid :: FiguresAt(o, buy, sell, ask, bid)
  }

  /** The profit in basis points is what buying and selling once earns on the money spent. */
  lemma ProfitMeaning(ask: real, bid: real)
    requires ask > 0.0
    ensures 10000.0 * bid == ask * (10000.0 + ProfitBps(ask, bid))
  {
    var r := (bid - ask) / ask;
    assert r * ask == bid - ask;
    assert ask * (10000.0 + r * 10000.0) == 10000.0 * ask + 10000.0 * (r * ask);
  }

  lemma ProfitAtLeast(ask: real, bid: real, m: real)
    requires ask > 0.0
    ensures ProfitBps(ask, bid) >= m <==> 10000.0 * bid >= ask * (10000.0 + m)
  {
    ProfitMeaning(ask, bid);
    Scaled(ask, 10000.0 + ProfitBps(ask, bid), 10000.0 + m);
  }

  lemma Scaled(k: real, x: real, y: real)
    requires k > 0.0
    ensures x >= y <==> k * x >= k * y
  {
  }

  lemma TopIsBest(b: Book)
    requires Keyed(b.bids) && Keyed(b.asks)
    ensures b.asks != map[] ==> BestAskOf(b, TopAsk(b).price) && b.asks[TopAsk(b).price] == TopAsk(b)
    ensures b.bids != map[] ==> BestBidOf(b, TopBid(b).price) && b.bids[TopBid(b).price] == TopBid(b)
  {
    if b.asks != map[] { assert IsLowest(Lowest(b.asks.Keys), b.asks.Keys); }
    if b.bids != map[] { assert IsHighest(Highest(b.bids.Keys), b.bids.Keys); }
  }

  lemma OpportuneMeaning(buy: Book, sell: Book, minProfitBps: real)
    requires Keyed(buy.asks) && Keyed(buy.bids) && Keyed(sell.asks) && Keyed(sell.bids)
    ensures Opportune(buy, sell, minProfitBps) <==> exists ask, bid :: PaysAt(buy, sell, ask, bid, minProfitBps)
  {
    TopIsBest(buy);
    TopIsBest(sell);
    if buy.asks != map[] && sell.bids != map[] {
      var (ask, bid) := (TopAsk(buy).price, TopBid(sell).price);
      forall p, q | PaysAt(buy, sell, p, q, minProfitBps) ensures p == ask && q == bid {}
      if ask > 0.0 { ProfitAtLeast(ask, bid, minProfitBps); }
      assert Opportune(buy, sell, minProfitBps) <==> PaysAt(buy, sell, ask, bid, minProfitBps);
    }
  }

  /** The scan reports a pair of books exactly if both are recent, they are of one canonical
      symbol, and trading from one best price to the other pays; each once, and every figure of
      every report is what the two books say. */
  lemma AnswerSpelledOut(books: map<BookId, LiveBook>, reported: seq<(BookId, BookId)>, found: seq<Opportunity>,
                         normalize: string -> string, minProfitBps: real, now: nat)
    requires ScanResult(books, reported, found, normalize, minProfitBps, now)
    requires forall id :: id in books ==> Keyed(books[id].book.bids) && Keyed(books[id].book.asks)
    ensures forall x, y :: (x, y) in reported <==> Pays(books, x, y, normalize, minProfitBps, now)
    ensures |found| == |reported| && forall k, l :: 0 <= k < l < |reported| ==> reported[k] != reported[l]
    ensures forall k :: 0 <= k < |found| ==>
              && reported[k].0 in books && reported[k].1 in books
              && Figures(found[k], books[reported[k].0], books[reported[k].1], normalize, now)
  {
    forall x, y ensures IsArbitrage(books, x, y, normalize, minProfitBps, now) <==> Pays(books, x, y, normalize, minProfitBps, now) {
      if x in books && y in books { OpportuneMeaning(books[x].book, books[y].book, minProfitBps); }
    }
    forall k | 0 <= k < |found|
      ensures reported[k].0 in books && reported[k].1 in books
      ensures Figures(found[k], books[reported[k].0], books[reported[k].1], normalize, now)
    {
      var (x, y) := reported[k];
      FiguresRight(books[x], books[y], normalize, minProfitBps, now);
    }
  }

  lemma FiguresRight(buy: LiveBook, sell: LiveBook, normalize: string -> string, minProfitBps: real, now: nat)
    requires Keyed(buy.book.asks) && Keyed(buy.book.bids) && Keyed(sell.book.asks) && Keyed(sell.book.bids)
    requires Opportune(buy.book, sell.book, minProfitBps)
    ensures Figures(BookReport(buy, sell, normalize, now), buy, sell, normalize, now)
  {
    TopIsBest(buy.book);
    TopIsBest(sell.book);
    var (ask, bid) := (TopAsk(buy.book).price, TopBid(sell.book).price);
    ProfitMeaning(ask, bid);
    assert FiguresAt(BookReport(buy, sell, normalize, now), buy, sell, ask, bid);
  }
}
