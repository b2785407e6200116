/** The engine's book maps and its calculation (src/arbitrage_engine.cpp).  Locks are left to
    the interleaving model of the dirty flag; here each call runs on its own. */
module Engine {
  import opened FixMessages
  import opened OrderBooks
  import opened FeedBatches
  import opened ArbitrageScan
  import opened ArbitrageAnswer
  import opened EngineFeeds

  function Only(m: map<BookId, LiveBook>, ids: set<BookId>): map<BookId, LiveBook> {
    map id | id in m && id in ids :: m[id]
  }

  class ArbitrageEngine {
    /** ws_books_ under the ids Ws(key), fix_books_ under the ids Fix(symbol). */
    var books: map<BookId, OrderBook>
    var booksDirty: bool
    var minProfitBps: real
    var opportunities: seq<Opportunity>
    var calculationCount: nat
    var opportunityCount: nat
    const normalize: string -> string
    ghost var reported: seq<(BookId, BookId)>

    /** Every book sits behind exactly one id. */
    static ghost predicate Separate(books: map<BookId, OrderBook>) {
      forall id, id' :: id in books && id' in books && id != id' ==> books[id] != books[id']
    }

    ghost predicate Valid()
      reads this`books, books.Values
    {
      Separate(books) && forall id :: id in books ==> books[id].Valid()
    }

    static ghost function LiveOf(b: OrderBook): LiveBook
      reads b
    {
      LiveBook(b.exchange, b.symbol, b.lastUpdateMs, b.Contents())
    }

    /** Every book the engine holds, as the scan sees it. */
    ghost function Live(): map<BookId, LiveBook>
      reads this`books, books.Values
    {
      map id | id in books :: LiveOf(books[id])
    }

    ghost function Contents(): map<BookId, Book>
      reads this`books, books.Values
    {
      BooksOf(Live())
    }

    constructor (normalize: string -> string)
      ensures Valid() && Contents() == map[] && !booksDirty && minProfitBps == 5.0
    {
      books := map[];
      booksDirty := false;
      minProfitBps := 5.0;
      opportunities, reported := [], [];
      calculationCount, opportunityCount := 0, 0;
      this.normalize := normalize;
    }

    // ----- producers -----

    /** Make sure a feed has a book: an empty one of its own exchange and symbol on first sight. */
    method OpenBook(id: BookId, exchange: string, symbol: string)
      requires Valid()
      modifies this`books
      ensures Valid() && id in books
      ensures forall k :: k in books ==> (k in old(books) && books[k] == old(books[k])) || fresh(books[k])
      ensures Live() == Opened(old(Live()), id, exchange, symbol)
    {
      if id !in books {
        ghost var was := Live();
        var added := new OrderBook(symbol, exchange);
        books := books[id := added];
        assert LiveOf(added) == LiveBook(exchange, symbol, 0, EMPTY_BOOK);
        forall k | k in was ensures LiveOf(books[k]) == was[k] {
          assert books[k] == old(books)[k];
        }
        OneBookWritten(was, id, LiveOf(added), Live());
      }
    }

    static lemma OneBookWritten(was: LiveBooks, id: BookId, b: LiveBook, now: LiveBooks)
      requires now.Keys == was.Keys + {id} && now[id] == b
      requires forall k :: k in was && k != id ==> now[k] == was[k]
      ensures now == was[id := b]
    {
    }

    method FeedWsBook(id: BookId, snap: Snapshot, now: nat)
      requires Valid() && id in books
      modifies books[id]
      ensures Valid()
      ensures Live() == old(Live())[id := FedWs(old(Live())[id], snap, now)]
    {
      ghost var was := Live();
      FeedBook(books[id], snap, now);
      assert forall k :: k in books && k != id ==> LiveOf(books[k]) == was[k];
      OneBookWritten(was, id, FedWs(was[id], snap, now), Live());
    }

    method FeedFixBook(id: BookId, msg: FixMessage, now: nat)
      requires Valid() && id in books && IsMarketData(msg)
      modifies books[id]
      ensures Valid()
      ensures Live() == old(Live())[id := FedFix(old(Live())[id], msg, now)]
    {
      ghost var was := Live();
      var book := books[id];
      if msg.msgType.MarketDataSnapshot? {
        book.ApplySnapshot(msg, now);
      } else {
        book.ApplyUpdate(msg, now);
      }
      assert forall k :: k in books && k != id ==> LiveOf(books[k]) == was[k];
      OneBookWritten(was, id, FedFix(was[id], msg, now), Live());
    }

    /** A depth message changes its own book as the batch says, and no other. */
    method UpdateOrderBook(snap: Snapshot, now: nat)
      requires Valid()
      modifies this`books, this`booksDirty, books.Values
      ensures Valid() && booksDirty
      ensures forall k :: k in books ==> (k in old(books) && books[k] == old(books[k])) || fresh(books[k])
      ensures Live() == After(old(Live()), FromWs(snap, now))
      ensures Contents() ==
              var id := BookId.Ws(WsKey(snap.exchange, snap.symbol));
              old(Contents())[id := ApplyFeed(BookAt(old(Contents()), id), snap)]
      ensures var id := BookId.Ws(WsKey(snap.exchange, snap.symbol));
              id in books && (Touches(snap) ==> books[id].lastUpdateMs == now)
    {
      AcceptWs(snap, now);
      BooksAfter(old(Live()), FromWs(snap, now));
      var id := BookId.Ws(WsKey(snap.exchange, snap.symbol));
      assert LiveOf(books[id]) == Live()[id];
    }

    method AcceptWs(snap: Snapshot, now: nat)
      requires Valid()
      modifies this`books, this`booksDirty, books.Values
      ensures Valid() && booksDirty
      ensures forall k :: k in books ==> (k in old(books) && books[k] == old(books[k])) || fresh(books[k])
      ensures Live() == After(old(Live()), FromWs(snap, now))
    {
      var id := BookId.Ws(WsKey(snap.exchange, snap.symbol));
      OpenBook(id, snap.exchange, snap.symbol);
      FeedWsBook(id, snap, now);
      booksDirty := true;
    }

    /** A FIX message is routed to the book of its symbol; other types are ignored. */
    method UpdateFixData(msg: FixMessage, now: nat)
      requires Valid()
      modifies this`books, this`booksDirty, books.Values
      ensures Valid()
      ensures booksDirty == (old(booksDirty) || IsMarketData(msg))
      ensures forall k :: k in books ==> (k in old(books) && books[k] == old(books[k])) || fresh(books[k])
      ensures Live() == After(old(Live()), FromFix(msg, now))
      ensures Contents() ==
              if IsMarketData(msg) then
                old(Contents())[BookId.Fix(msg.symbol) := ApplyFix(BookAt(old(Contents()), BookId.Fix(msg.symbol)), msg)]
              else old(Contents())
      ensures IsMarketData(msg) ==> BookId.Fix(msg.symbol) in books && books[BookId.Fix(msg.symbol)].lastUpdateMs == now
      ensures msg.msgType.MarketDataSnapshot? || msg.msgType.MarketDataIncremental? ==>
                && BookId.Fix(msg.symbol) in Contents()
                && BookLeftByEntries(BookAt(old(Contents()), BookId.Fix(msg.symbol)), msg.entries,
                                     msg.msgType.MarketDataSnapshot?, Contents()[BookId.Fix(msg.symbol)])
    {
      if IsMarketData(msg) {
        AcceptFix(msg, now);
        assert LiveOf(books[BookId.Fix(msg.symbol)]) == Live()[BookId.Fix(msg.symbol)];
      }
      BooksAfter(old(Live()), FromFix(msg, now));
      FixMeaning(BookAt(old(Contents()), BookId.Fix(msg.symbol)), msg);
    }

    method AcceptFix(msg: FixMessage, now: nat)
      requires Valid() && IsMarketData(msg)
      modifies this`books, this`booksDirty, books.Values
      ensures Valid() && booksDirty
      ensures forall k :: k in books ==> (k in old(books) && books[k] == old(books[k])) || fresh(books[k])
      ensures Live() == After(old(Live()), FromFix(msg, now))
    {
      var id := BookId.Fix(msg.symbol);
      OpenBook(id, "FIX", msg.symbol);
      FeedFixBook(id, msg, now);
      booksDirty := true;
    }

    /** Any messages, taken in place from the start, leave the books that EngineFeeds tells of. */
    method Feed(updates: seq<Update>)
      requires Valid() && books == map[]
      modifies this`books, this`booksDirty
      ensures Valid() && Live() == AfterAll(updates)
      ensures forall k :: k in books ==> fresh(books[k])
    {
      for i := 0 to |updates|
        invariant Valid() && Live() == AfterAll(updates[..i])
        invariant forall k :: k in books ==> fresh(books[k])
      {
        match updates[i] {
          case FromWs(snap, at) => UpdateOrderBook(snap, at);
          case FromFix(msg, at) => UpdateFixData(msg, at);
        }
        assert updates[..i + 1][..i] == updates[..i];
      }
      assert updates[..|updates|] == updates;
    }

    // ----- the calculation -----

    /** Snapshots of the non-empty books among `ids`, in whatever order the map yields them. */
    method SnapshotBooks(ids: set<BookId>) returns (entries: seq<Entry>)
      requires Valid() && ids <= books.Keys
      ensures SnapsOf(entries, Only(Live(), ids))
    {
      entries := [];
      var rest := ids;
      ghost var all := Only(Live(), ids);
      assert all - rest == map[];
      while rest != {}
        invariant rest <= ids
        invariant SnapsOf(entries, all - rest)
        decreases |rest|
      {
        var id: BookId :| id in rest;
        var snap := books[id].GetSnapshot();
        var e := Entry(id, snap.exchange, snap);
        AddSnap(entries, all, rest, e);
        if !snap.Empty() { entries := entries + [e]; }
        rest := rest - {id};
      }
      assert all - rest == all;
    }

    /** The snapshots of both book maps. */
    method SnapshotAll()
      returns (wsSnaps: seq<Entry>, fixSnaps: seq<Entry>, ghost ws: LiveBooks, ghost fix: LiveBooks)
      requires Valid()
      ensures ws + fix == Live() && ws.Keys !! fix.Keys
      ensures SnapsOf(wsSnaps, ws) && SnapsOf(fixSnaps, fix)
    {
      var wsIds, fixIds := set id | id in books && id.Ws?, set id | id in books && id.Fix?;
      wsSnaps := SnapshotBooks(wsIds);
      fixSnaps := SnapshotBooks(fixIds);
      ws, fix := Only(Live(), wsIds), Only(Live(), fixIds);
      SplitById(Live(), wsIds, fixIds);
    }

    method ScanBooks(now: nat) returns (found: seq<Opportunity>, ghost pairs: seq<(BookId, BookId)>)
      requires Valid()
      ensures ScanResult(Live(), pairs, found, normalize, minProfitBps, now)
    {
      var wsSnaps, fixSnaps;
      ghost var ws, fix;
      wsSnaps, fixSnaps, ws, fix := SnapshotAll();
      found, pairs := Scan(wsSnaps, fixSnaps, normalize, minProfitBps, now, ws, fix);
    }

    static lemma SplitById(live: map<BookId, LiveBook>, wsIds: set<BookId>, fixIds: set<BookId>)
      requires wsIds !! fixIds && wsIds + fixIds == live.Keys
      ensures Only(live, wsIds) + Only(live, fixIds) == live
      ensures Only(live, wsIds).Keys !! Only(live, fixIds).Keys
    {
    }

    /** The scan reports exactly the ordered pairs of different fresh books of one canonical
        symbol that pay, each once, with the figures of their best levels. */
    method CalculateArbitrage(now: nat)
      requires Valid()
      modifies this`opportunities, this`calculationCount, this`opportunityCount, this`reported
      ensures Valid() && Live() == old(Live())
      ensures ScanResult(Live(), reported, opportunities, normalize, minProfitBps, now)
      ensures forall x, y :: (x, y) in reported <==> Pays(Live(), x, y, normalize, minProfitBps, now)
      ensures calculationCount == old(calculationCount) + 1
      ensures opportunityCount == old(opportunityCount) + |reported|
    {
      var found, pairs := ScanBooks(now);
      AnswerSpelledOut(Live(), pairs, found, normalize, minProfitBps, now);
      opportunities, reported := found, pairs;
      calculationCount := calculationCount + 1;
      opportunityCount := opportunityCount + |found|;
    }
  }
}
