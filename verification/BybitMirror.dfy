/** The Bybit client keeps its own copy of each book (src/bybit_client.cpp) and hands every
    message on to the engine, which prunes crossed bids and the client does not.  How far the
    two copies can drift apart. */
module BybitMirror {
  import opened Optional
  import opened OrderBooks
  import opened FeedBatches
  import opened ArbitrageScan
  import opened Engine
  import opened EngineFeeds

  function LocalBook(msgs: seq<Snapshot>): Book
    decreases |msgs|
  {
    if msgs == [] then EMPTY_BOOK
    else ApplyBatch(LocalBook(msgs[..|msgs| - 1]), msgs[|msgs| - 1])
  }

  function EngineBook(msgs: seq<Snapshot>): Book
    decreases |msgs|
  {
    if msgs == [] then EMPTY_BOOK
    else ApplyFeed(EngineBook(msgs[..|msgs| - 1]), msgs[|msgs| - 1])
  }

  /** The message decides what bid stands at p. */
  ghost predicate RewritesBid(msg: Snapshot, p: Price) {
    msg.isSnapshot || Writes(msg.bids, p)
  }

  ghost predicate ReachesAsk(b: Book, p: Price) {
    exists q :: q in b.asks && q <= p
  }

  /** Message i was a delta that left p at or above the best ask, and nothing since has said
      anything about a bid at p. */
  ghost predicate PrunedAt(msgs: seq<Snapshot>, p: Price, i: nat) {
    && i < |msgs|
    && !msgs[i].isSnapshot
    && ReachesAsk(LocalBook(msgs[..i + 1]), p)
    && forall j :: i < j < |msgs| ==> !RewritesBid(msgs[j], p)
  }

  ghost predicate Pruned(msgs: seq<Snapshot>, p: Price) {
    exists i: nat :: PrunedAt(msgs, p, i)
  }

  /** A prune in the past of a message still counts after it, unless the message mentions p. */
  lemma PrunedCarries(msgs: seq<Snapshot>, n: nat, p: Price, i: nat)
    requires n + 1 == |msgs| && i < n
    ensures PrunedAt(msgs, p, i) <==> PrunedAt(msgs[..n], p, i) && !RewritesBid(msgs[n], p)
  {
    var before := msgs[..n];
    assert before[..i + 1] == msgs[..i + 1];
    assert forall j :: i < j < n ==> before[j] == msgs[j];
  }

  lemma PrunedStep(msgs: seq<Snapshot>, n: nat, p: Price)
    requires n + 1 == |msgs|
    ensures Pruned(msgs, p) <==>
              || (!msgs[n].isSnapshot && ReachesAsk(LocalBook(msgs), p))
              || (Pruned(msgs[..n], p) && !RewritesBid(msgs[n], p))
  {
    assert msgs[..n + 1] == msgs;
    forall i: nat | i < n
      ensures PrunedAt(msgs, p, i) <==> PrunedAt(msgs[..n], p, i) && !RewritesBid(msgs[n], p)
    {
      PrunedCarries(msgs, n, p, i);
    }
    assert PrunedAt(msgs, p, n) <==> !msgs[n].isSnapshot && ReachesAsk(LocalBook(msgs), p);
  }

  /** What one message does to a bid, given what stood there before. */
  lemma BidAfter(b: Book, msg: Snapshot, p: Price)
    ensures !RewritesBid(msg, p) ==> Lookup(ApplyBatch(b, msg).bids, p) == Lookup(b.bids, p)
    ensures RewritesBid(msg, p) ==> forall c: Book ::
              Lookup(ApplyBatch(b, msg).bids, p) == Lookup(ApplyBatch(c, msg).bids, p)
  {
    if !RewritesBid(msg, p) {
      OverlayUntouched(b.bids, msg.bids, p);
    } else if !msg.isSnapshot {
      var i := LastWriteExists(msg.bids, p);
      forall c: Book
        ensures Lookup(ApplyBatch(b, msg).bids, p) == Lookup(ApplyBatch(c, msg).bids, p)
      {
        OverlayLastWrite(b.bids, msg.bids, p, i);
        OverlayLastWrite(c.bids, msg.bids, p, i);
      }
    }
  }

  /** After any messages: same asks; and a bid of the local book is in the engine's book, with
      the same level, exactly unless some delta since its last mention left it at or above the
      best ask.  The engine holds no other bid. */
  lemma {:induction false} EngineMirrorsLocal(msgs: seq<Snapshot>)
    ensures EngineBook(msgs).asks == LocalBook(msgs).asks
    ensures forall p :: Lookup(EngineBook(msgs).bids, p) ==
                        if Pruned(msgs, p) then None else Lookup(LocalBook(msgs).bids, p)
    decreases |msgs|
  {
    if msgs != [] {
      var n := |msgs| - 1;
      var before, msg := msgs[..n], msgs[n];
      EngineMirrorsLocal(before);
      var local, engine := LocalBook(before), EngineBook(before);
      var batch := ApplyBatch(engine, msg);
      assert batch.asks == LocalBook(msgs).asks;
      UncrossedMeaning(batch);
      forall p ensures Lookup(EngineBook(msgs).bids, p) ==
                       if Pruned(msgs, p) then None else Lookup(LocalBook(msgs).bids, p)
      {
        PrunedStep(msgs, n, p);
        BidAfter(engine, msg, p);
        BidAfter(local, msg, p);
      }
    }
  }

  /** If no delta leaves the local book crossed, the two copies never differ. */
  lemma {:induction false} UncrossedFeedsAgree(msgs: seq<Snapshot>)
    requires forall i: nat :: i < |msgs| && !msgs[i].isSnapshot ==> NotCrossed(LocalBook(msgs[..i + 1]))
    ensures EngineBook(msgs) == LocalBook(msgs)
    decreases |msgs|
  {
    if msgs != [] {
      var n := |msgs| - 1;
      forall i: nat | i < n && !msgs[..n][i].isSnapshot ensures NotCrossed(LocalBook(msgs[..n][..i + 1])) {
        assert msgs[..n][..i + 1] == msgs[..i + 1];
      }
      UncrossedFeedsAgree(msgs[..n]);
      assert msgs[..n + 1] == msgs;
      UncrossedMeaning(LocalBook(msgs));
    }
  }

  /** The copies do drift: a bid at the ask is dropped by the engine alone, and stays missing
      after the ask is gone. */
  lemma DroppedBidStaysMissing()
    ensures exists msgs: seq<Snapshot>, p: Price ::
              NotCrossed(LocalBook(msgs)) && p in LocalBook(msgs).bids && p !in EngineBook(msgs).bids
  {
    var five := PriceLevel(5.0, 1.0, 0);
    var m1 := Snapshot("S", "Bybit", 0, true, [], [five]);
    var m2 := Snapshot("S", "Bybit", 0, false, [five], []);
    var m3 := Snapshot("S", "Bybit", 0, false, [], [PriceLevel(5.0, 0.0, 0)]);
    var one, two, all := [m1], [m1, m2], [m1, m2, m3];
    assert two[..1] == one && all[..2] == two && one[..0] == [];
    assert LocalBook(one) == Book(map[], map[5.0 := five]);
    assert [five][..0] == [] && Overlay(map[], [five]) == map[5.0 := five];
    assert LocalBook(two) == Book(map[5.0 := five], map[5.0 := five]);
    assert m3.asks[..0] == [];
    assert Overlay(map[5.0 := five], m3.asks) == map[];
    assert LocalBook(all) == Book(map[5.0 := five], map[]);
    assert ReachesAsk(LocalBook(all[..2]), 5.0);
    assert PrunedAt(all, 5.0, 1);
    EngineMirrorsLocal(all);
    assert Lookup(EngineBook(all).bids, 5.0) == None;
  }

  // ----- the client -----

  class BybitClient {
    var localBooks: map<string, OrderBook>

    ghost predicate Valid()
      reads this, localBooks.Values
    {
      && (forall k :: k in localBooks ==> localBooks[k].Valid())
      && (forall k, l :: k in localBooks && l in localBooks && k != l ==> localBooks[k] != localBooks[l])
    }

    ghost function Contents(): map<string, Book>
      reads this, localBooks.Values
    {
      map k | k in localBooks :: localBooks[k].Contents()
    }

    function LocalAt(symbol: string): Book
      reads this, localBooks.Values
    {
      if symbol in localBooks then localBooks[symbol].Contents() else EMPTY_BOOK
    }

    constructor ()
      ensures Valid() && localBooks == map[]
    {
      localBooks := map[];
    }

    /** The local-book part of `parse_depth_message`; the snapshot goes on to the engine. */
    method OnDepth(symbol: string, isSnapshot: bool, bids: seq<PriceLevel>, asks: seq<PriceLevel>, now: nat)
      returns (snap: Snapshot)
      requires Valid()
      modifies this, localBooks.Values
      ensures Valid() && snap == Snapshot(symbol, "Bybit", now, isSnapshot, bids, asks)
      ensures LocalAt(symbol) == ApplyBatch(old(LocalAt(symbol)), snap)
      ensures forall k :: k in localBooks ==> (k in old(localBooks) && localBooks[k] == old(localBooks[k])) || fresh(localBooks[k])
      ensures forall k :: k != symbol ==> LocalAt(k) == old(LocalAt(k))
    {
      snap := Snapshot(symbol, "Bybit", now, isSnapshot, bids, asks);
      if symbol !in localBooks {
        var added := new OrderBook(symbol, "Bybit");
        localBooks := localBooks[symbol := added];
      }
      var book := localBooks[symbol];
      if isSnapshot { ReplaceBook(book, snap, now); } else { AmendBook(book, snap, now); }
    }
  }

  ghost predicate SharesNoBook(client: BybitClient, engine: ArbitrageEngine)
    reads client`localBooks, engine`books
  {
    forall k, id :: k in client.localBooks && id in engine.books ==> client.localBooks[k] != engine.books[id]
  }

  /** One message through the client and on to the engine. */
  method RelayOne(client: BybitClient, engine: ArbitrageEngine, m: Snapshot)
    requires client.Valid() && engine.Valid() && SharesNoBook(client, engine) && m.exchange == "Bybit"
    modifies client, client.localBooks.Values, engine`books, engine`booksDirty, engine.books.Values
    ensures client.Valid() && engine.Valid() && SharesNoBook(client, engine)
    ensures forall k :: k in client.localBooks ==>
              (k in old(client.localBooks) && client.localBooks[k] == old(client.localBooks[k])) || fresh(client.localBooks[k])
    ensures forall k :: k in engine.books ==>
              (k in old(engine.books) && engine.books[k] == old(engine.books[k])) || fresh(engine.books[k])
    ensures client.LocalAt(m.symbol) == ApplyBatch(old(client.LocalAt(m.symbol)), m)
    ensures engine.Contents() ==
            var id := BookId.Ws(WsKey("Bybit", m.symbol));
            old(engine.Contents())[id := ApplyFeed(BookAt(old(engine.Contents()), id), m)]
  {
    var snap := client.OnDepth(m.symbol, m.isSnapshot, m.bids, m.asks, m.timestampMs);
    assert snap == m;
    assert engine.Live() == old(engine.Live());
    HandOn(client, engine, snap);
  }

  /** The engine's side: the client's books stay as they are. */
  method HandOn(client: BybitClient, engine: ArbitrageEngine, m: Snapshot)
    requires client.Valid() && engine.Valid() && SharesNoBook(client, engine)
    modifies engine`books, engine`booksDirty, engine.books.Values
    ensures client.Valid() && engine.Valid() && SharesNoBook(client, engine)
    ensures client.LocalAt(m.symbol) == old(client.LocalAt(m.symbol))
    ensures forall k :: k in engine.books ==>
              (k in old(engine.books) && engine.books[k] == old(engine.books[k])) || fresh(engine.books[k])
    ensures engine.Contents() ==
            var id := BookId.Ws(WsKey(m.exchange, m.symbol));
            old(engine.Contents())[id := ApplyFeed(BookAt(old(engine.Contents()), id), m)]
  {
    engine.UpdateOrderBook(m, m.timestampMs);
  }

  /** Feeding the depth messages of one symbol to the client, which hands each on to the
      engine, leaves exactly the two books related by EngineMirrorsLocal. */
  method Relay(client: BybitClient, engine: ArbitrageEngine, symbol: string, msgs: seq<Snapshot>)
    requires client.Valid() && engine.Valid() && SharesNoBook(client, engine)
    requires symbol !in client.localBooks && BookId.Ws(WsKey("Bybit", symbol)) !in engine.books
    requires forall m :: m in msgs ==> m.symbol == symbol && m.exchange == "Bybit"
    modifies client, client.localBooks.Values, engine`books, engine`booksDirty, engine.books.Values
    ensures client.Valid() && engine.Valid()
    ensures client.LocalAt(symbol) == LocalBook(msgs)
    ensures BookAt(engine.Contents(), BookId.Ws(WsKey("Bybit", symbol))) == EngineBook(msgs)
  {
    var id := BookId.Ws(WsKey("Bybit", symbol));
    ghost var clientBooks, engineBooks := client.localBooks.Values, engine.books.Values;
    for i := 0 to |msgs|
      invariant client.Valid() && engine.Valid() && SharesNoBook(client, engine)
      invariant forall k :: k in client.localBooks ==> client.localBooks[k] in clientBooks || fresh(client.localBooks[k])
      invariant forall k :: k in engine.books ==> engine.books[k] in engineBooks || fresh(engine.books[k])
      invariant client.LocalAt(symbol) == LocalBook(msgs[..i])
      invariant BookAt(engine.Contents(), id) == EngineBook(msgs[..i])
    {
      assert msgs[i] in msgs;
      assert msgs[..i + 1][..i] == msgs[..i];
      RelayOne(client, engine, msgs[i]);
    }
    assert msgs[..|msgs|] == msgs;
  }
}
