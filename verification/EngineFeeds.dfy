/** What the engine's producers make of its books, message by message
    (src/arbitrage_engine.cpp): which book a message goes to, and what it holds after any
    sequence of messages. */
module EngineFeeds {
  import opened FixMessages
  import opened OrderBooks
  import opened FeedBatches
  import opened ArbitrageScan
  import opened TextSearch

  function WsKey(exchange: string, symbol: string): string {
    exchange + ":" + symbol
  }

  /** The book a message finds: a new one if the id is unknown. */
  function BookAt(books: map<BookId, Book>, id: BookId): Book {
    if id in books then books[id] else EMPTY_BOOK
  }

  /** What a FIX message makes of a book. */
  function ApplyFix(b: Book, msg: FixMessage): Book {
    if msg.msgType.MarketDataSnapshot? then ApplyEntries(EMPTY_BOOK, msg.entries, true)
    else ApplyEntries(b, msg.entries, false)
  }

  predicate IsMarketData(msg: FixMessage) {
    msg.msgType.MarketDataSnapshot? || msg.msgType.MarketDataIncremental?
  }

  type LiveBooks = map<BookId, LiveBook>

  /** A message that reaches the engine, and when. */
  datatype Update = FromWs(snap: Snapshot, at: nat) | FromFix(msg: FixMessage, at: nat)

  function IdOf(u: Update): BookId {
    match u
    case FromWs(snap, _) => Ws(WsKey(snap.exchange, snap.symbol))
    case FromFix(msg, _) => Fix(msg.symbol)
  }

  /** Messages without market data reach no book. */
  predicate Reaches(u: Update) { u.FromFix? ==> IsMarketData(u.msg) }

  /** The book the message finds: one of its own exchange and symbol, if it has to be created. */
  function Opened(live: LiveBooks, id: BookId, exchange: string, symbol: string): LiveBooks {
    if id in live then live else live[id := LiveBook(exchange, symbol, 0, EMPTY_BOOK)]
  }

  function FedWs(b: LiveBook, snap: Snapshot, at: nat): LiveBook {
    b.(updatedMs := if Touches(snap) then at else b.updatedMs, book := ApplyFeed(b.book, snap))
  }

  /** A snapshot names a book that has no name yet. */
  function FedFix(b: LiveBook, msg: FixMessage, at: nat): LiveBook {
    LiveBook(b.exchange, if b.symbol == "" && msg.msgType.MarketDataSnapshot? then msg.symbol else b.symbol, at,
             ApplyFix(b.book, msg))
  }

  function After(live: LiveBooks, u: Update): LiveBooks {
    var id := IdOf(u);
    match u
    case FromWs(snap, at) =>
      var ready := Opened(live, id, snap.exchange, snap.symbol);
      ready[id := FedWs(ready[id], snap, at)]
    case FromFix(msg, at) =>
      if !IsMarketData(msg) then live
      else
        var ready := Opened(live, id, "FIX", msg.symbol);
        ready[id := FedFix(ready[id], msg, at)]
  }

  /** What the books hold, without their labels and stamps. */
  function BooksOf(live: LiveBooks): map<BookId, Book> {
    map id | id in live :: live[id].book
  }

  lemma BooksOfOpened(live: LiveBooks, id: BookId, exchange: string, symbol: string)
    ensures BooksOf(Opened(live, id, exchange, symbol)) == BooksOf(live)[id := BookAt(BooksOf(live), id)]
  {
  }

  lemma BooksOfFed(live: LiveBooks, id: BookId, b: LiveBook)
    ensures BooksOf(live[id := b]) == BooksOf(live)[id := b.book]
  {
  }

  /** The book of the message takes it in; the other books stay as they are. */
  lemma BooksAfter(live: LiveBooks, u: Update)
    ensures BooksOf(After(live, u)) ==
              if !Reaches(u) then BooksOf(live)
              else
                var b := BookAt(BooksOf(live), IdOf(u));
                BooksOf(live)[IdOf(u) := if u.FromWs? then ApplyFeed(b, u.snap) else ApplyFix(b, u.msg)]
  {
  }

  function AfterAll(updates: seq<Update>): LiveBooks
    decreases |updates|
  {
    if updates == [] then map[] else After(AfterAll(updates[..|updates| - 1]), updates[|updates| - 1])
  }

  /** A FIX message leaves every level of its book as its entries say: a snapshot sets those it
      names and forgets the rest, an update keeps the rest. */
  lemma FixMeaning(b: Book, msg: FixMessage)
    ensures BookLeftByEntries(b, msg.entries, msg.msgType.MarketDataSnapshot?, ApplyFix(b, msg))
  {
    EntriesMeaning(b, msg.entries, msg.msgType.MarketDataSnapshot?);
  }

  // ----- keys -----

  /** Two depth messages share a book only if they agree on exchange and symbol. */
  lemma KeysDiffer(exchange: string, symbol: string, exchange': string, symbol': string)
    requires ':' !in exchange && ':' !in exchange' && WsKey(exchange, symbol) == WsKey(exchange', symbol')
    ensures exchange == exchange' && symbol == symbol'
  {
    FirstIndex(exchange, ':', symbol);
    FirstIndex(exchange', ':', symbol');
    var key := WsKey(exchange, symbol);
    assert key == exchange + [':'] + symbol == exchange' + [':'] + symbol';
    assert key[..|exchange|] == exchange && key[..|exchange|] == exchange';
    assert key[|exchange| + 1..] == symbol && key[|exchange| + 1..] == symbol';
  }

  /** With a colon in an exchange name they may not. */
  lemma KeysMayMeet()
    ensures WsKey("A", "B:C") == WsKey("A:B", "C")
  {
  }

  // ----- labels -----

  ghost predicate PlainNames(updates: seq<Update>) {
    forall u :: u in updates && u.FromWs? ==> ':' !in u.snap.exchange
  }

  ghost predicate Labelled(id: BookId, b: LiveBook) {
    match id
    case Ws(key) => key == WsKey(b.exchange, b.symbol) && ':' !in b.exchange
    case Fix(symbol) => b.exchange == "FIX" && b.symbol == symbol
  }

  ghost predicate AllLabelled(live: LiveBooks) {
    forall id :: id in live ==> Labelled(id, live[id])
  }

  lemma {:induction false} RunLabels(updates: seq<Update>)
    requires PlainNames(updates)
    ensures AllLabelled(AfterAll(updates))
    decreases |updates|
  {
    if updates != [] {
      var n := |updates| - 1;
      RunLabels(updates[..n]);
      assert updates[n] in updates;
    }
  }

  lemma {:induction false} RunOpens(updates: seq<Update>, u: Update)
    requires u in updates && Reaches(u)
    ensures IdOf(u) in AfterAll(updates)
    decreases |updates|
  {
    var n := |updates| - 1;
    if updates[n] != u { RunOpens(updates[..n], u); }
  }

  /** After any messages, the book that any one of them went to carries that message's exchange
      and symbol: a depth message's own, "FIX" and the symbol for a FIX message. */
  lemma BooksCarryTheirNames(updates: seq<Update>, u: Update)
    requires PlainNames(updates) && u in updates && Reaches(u)
    ensures IdOf(u) in AfterAll(updates)
    ensures u.FromWs? ==> var b := AfterAll(updates)[Ws(u.snap.exchange + ":" + u.snap.symbol)];
                          b.exchange == u.snap.exchange && b.symbol == u.snap.symbol
    ensures u.FromFix? ==> var b := AfterAll(updates)[Fix(u.msg.symbol)];
                           b.exchange == "FIX" && b.symbol == u.msg.symbol
  {
    RunLabels(updates);
    RunOpens(updates, u);
    assert Labelled(IdOf(u), AfterAll(updates)[IdOf(u)]);
    if u.FromWs? {
      var b := AfterAll(updates)[IdOf(u)];
      KeysDiffer(u.snap.exchange, u.snap.symbol, b.exchange, b.symbol);
    }
  }

  // ----- contents -----

  /** The messages that go to one book, in order. */
  function Own(updates: seq<Update>, id: BookId): seq<Update>
    decreases |updates|
  {
    if updates == [] then []
    else
      var u := updates[|updates| - 1];
      Own(updates[..|updates| - 1], id) + if IdOf(u) == id && Reaches(u) then [u] else []
  }

  /** What one book on its own makes of messages. */
  function BookOf(own: seq<Update>): Book
    decreases |own|
  {
    if own == [] then EMPTY_BOOK
    else
      var (before, u) := (BookOf(own[..|own| - 1]), own[|own| - 1]);
      if u.FromWs? then ApplyFeed(before, u.snap) else ApplyFix(before, u.msg)
  }

  lemma BookOfAppend(own: seq<Update>, u: Update)
    ensures BookOf(own + [u]) == if u.FromWs? then ApplyFeed(BookOf(own), u.snap) else ApplyFix(BookOf(own), u.msg)
    ensures own + [] == own
  {
    assert (own + [u])[..|own|] == own;
  }

  lemma OneMore(live: LiveBooks, u: Update, id: BookId)
    ensures id in After(live, u) <==> id in live || (IdOf(u) == id && Reaches(u))
    ensures !(IdOf(u) == id && Reaches(u)) && id in live ==> After(live, u)[id] == live[id]
    ensures IdOf(u) == id && Reaches(u) ==>
              var before := if id in live then live[id].book else EMPTY_BOOK;
              After(live, u)[id].book == if u.FromWs? then ApplyFeed(before, u.snap) else ApplyFix(before, u.msg)
  {
  }

  /** Books do not mix: each one is what its own messages alone make of an empty book, and it
      exists exactly if there were any. */
  lemma {:induction false} BookIsOwnMessages(updates: seq<Update>, id: BookId)
    ensures id in AfterAll(updates) <==> Own(updates, id) != []
    ensures id in AfterAll(updates) ==> AfterAll(updates)[id].book == BookOf(Own(updates, id))
    decreases |updates|
  {
    if updates != [] {
      var n := |updates| - 1;
      var u := updates[n];
      BookIsOwnMessages(updates[..n], id);
      BookOfAppend(Own(updates[..n], id), u);
      OneMore(AfterAll(updates[..n]), u, id);
    }
  }

  /** A message stamps its book with its time, and every other book keeps its stamp. */
  lemma StampsAreLatest(updates: seq<Update>, u: Update, id: BookId)
    ensures
      var (before, after) := (AfterAll(updates), AfterAll(updates + [u]));
      var stamps := Reaches(u) && id == IdOf(u) && (u.FromFix? || u.snap.isSnapshot || u.snap.bids != [] || u.snap.asks != []);
      && (stamps ==> id in after && after[id].updatedMs == u.at)
      && (!stamps && id in before ==> id in after && after[id].updatedMs == before[id].updatedMs)
      && (!stamps && id !in before && id in after ==> after[id].updatedMs == 0)
  {
    assert (updates + [u])[..|updates|] == updates;
  }
}
