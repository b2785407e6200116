/** The all-pairs comparison of `calculate_arbitrage` (src/arbitrage_engine.cpp), on the
    snapshots taken at its start.  Clock and symbol normalisation are parameters. */
module ArbitrageScan {
  import opened OrderBooks

  /** Which map a book lives in, and under which key. */
  datatype BookId = Ws(key: string) | Fix(symbol: string)

  /** A book as the scan may see it. */
  datatype LiveBook = LiveBook(exchange: string, symbol: string, updatedMs: nat, book: Book)

  /** A snapshot in a bucket, with the book it was taken from. */
  datatype Entry = Entry(id: BookId, exchange: string, snap: Snapshot)

  datatype Opportunity = Opportunity(
    symbol: string, buyExchange: string, sellExchange: string,
    buyPrice: real, sellPrice: real, profitBps: real, maxQuantity: real, timestampMs: nat)

  const STALENESS_LIMIT_MS: nat := 500

  function StalenessMs(updatedMs: nat, now: nat): nat {
    if updatedMs > now then 0 else now - updatedMs
  }

  function Min(x: real, y: real): real { if y < x then y else x }

  function ProfitBps(ask: real, bid: real): real
    requires ask > 0.0
  {
    (bid - ask) / ask * 10000.0
  }

  /** The code's test for buying on one entry and selling on another. */
  predicate Qualifies(buy: Entry, sell: Entry, minProfitBps: real) {
    && buy.snap.asks != [] && sell.snap.bids != []
    && var ask, bid := buy.snap.asks[0], sell.snap.bids[0];
    && bid.price > ask.price && ask.price > 0.0
    && ProfitBps(ask.price, bid.price) >= minProfitBps
    && Min(ask.quantity, bid.quantity) > 0.0
  }

  function Report(symbol: string, buy: Entry, sell: Entry, now: nat): Opportunity
    requires buy.snap.asks != [] && sell.snap.bids != [] && buy.snap.asks[0].price > 0.0
  {
    var ask, bid := buy.snap.asks[0], sell.snap.bids[0];
    Opportunity(symbol, buy.exchange, sell.exchange, ask.price, bid.price,
                ProfitBps(ask.price, bid.price), Min(ask.quantity, bid.quantity), now)
  }

  // ----- the order in which the nested loops report -----

  function PairReports(a: Entry, b: Entry, minProfitBps: real): seq<(Entry, Entry)> {
    (if Qualifies(a, b, minProfitBps) then [(a, b)] else []) +
    (if Qualifies(b, a, minProfitBps) then [(b, a)] else [])
  }

  function RowReports(e: Entry, rest: seq<Entry>, minProfitBps: real): seq<(Entry, Entry)> {
    if rest == [] then []
    else PairReports(e, rest[0], minProfitBps) + RowReports(e, rest[1..], minProfitBps)
  }

  function AllReports(entries: seq<Entry>, minProfitBps: real): seq<(Entry, Entry)> {
    if entries == [] then []
    else RowReports(entries[0], entries[1..], minProfitBps) + AllReports(entries[1..], minProfitBps)
  }

  ghost predicate Distinct<T>(s: seq<T>) {
    forall i, j :: 0 <= i < j < |s| ==> s[i] != s[j]
  }

  lemma DistinctConcat<T>(s: seq<T>, t: seq<T>)
    requires Distinct(s) && Distinct(t) && forall x :: x in s ==> x !in t
    ensures Distinct(s + t)
  {
    forall i, j | 0 <= i < j < |s + t| ensures (s + t)[i] != (s + t)[j] {
      if i < |s| <= j { assert (s + t)[i] in s && (s + t)[j] == t[j - |s|]; }
    }
  }

  lemma {:induction false} RowReportsExact(e: Entry, rest: seq<Entry>, minProfitBps: real)
    requires Distinct(rest) && e !in rest
    ensures Distinct(RowReports(e, rest, minProfitBps))
    ensures forall x, y :: (x, y) in RowReports(e, rest, minProfitBps) <==>
              Qualifies(x, y, minProfitBps) && ((x == e && y in rest) || (y == e && x in rest))
  {
    if rest != [] {
      var pair, row := PairReports(e, rest[0], minProfitBps), RowReports(e, rest[1..], minProfitBps);
      RowReportsExact(e, rest[1..], minProfitBps);
      assert rest == [rest[0]] + rest[1..];
      assert rest[0] !in rest[1..];
      assert e != rest[0];
      forall p | p in pair ensures p !in row {
        assert p.0 == rest[0] || p.1 == rest[0];
      }
      DistinctConcat(pair, row);
      forall x, y
        ensures (x, y) in pair + row <==>
          Qualifies(x, y, minProfitBps) && ((x == e && y in rest) || (y == e && x in rest))
      {
        PairExact(e, rest[0], x, y, minProfitBps);
      }
    }
  }

  lemma PairExact(a: Entry, b: Entry, x: Entry, y: Entry, minProfitBps: real)
    ensures (x, y) in PairReports(a, b, minProfitBps) <==>
              Qualifies(x, y, minProfitBps) && ((x == a && y == b) || (x == b && y == a))
  {
  }

  /** The loops report each qualifying ordered pair of two different entries, once. */
  lemma {:induction false} AllReportsExact(entries: seq<Entry>, minProfitBps: real)
    requires Distinct(entries)
    ensures Distinct(AllReports(entries, minProfitBps))
    ensures forall x, y :: (x, y) in AllReports(entries, minProfitBps) <==>
              x in entries && y in entries && x != y && Qualifies(x, y, minProfitBps)
  {
    if entries != [] {
      var e, rest := entries[0], entries[1..];
      assert entries == [e] + rest;
      assert e !in rest;
      RowReportsExact(e, rest, minProfitBps);
      AllReportsExact(rest, minProfitBps);
      var row, others := RowReports(e, rest, minProfitBps), AllReports(rest, minProfitBps);
      forall p | p in row ensures p !in others {
        var (x, y) := p;
      }
      DistinctConcat(row, others);
    }
  }

  /** Both directions of one pair. */
  method ComparePair(symbol: string, a: Entry, b: Entry, minProfitBps: real, now: nat)
    returns (found: seq<Opportunity>, ghost pairs: seq<(Entry, Entry)>)
    ensures pairs == PairReports(a, b, minProfitBps)
    ensures Reported(found, pairs, symbol, minProfitBps, now)
  {
    found, pairs := [], [];
    if Qualifies(a, b, minProfitBps) {
      found, pairs := found + [Report(symbol, a, b, now)], pairs + [(a, b)];
    }
    if Qualifies(b, a, minProfitBps) {
      found, pairs := found + [Report(symbol, b, a, now)], pairs + [(b, a)];
    }
  }

  /** One entry against all later ones. */
  method ScanRow(symbol: string, entries: seq<Entry>, i: nat, minProfitBps: real, now: nat)
    returns (found: seq<Opportunity>, ghost pairs: seq<(Entry, Entry)>)
    requires i < |entries|
    ensures pairs == RowReports(entries[i], entries[i + 1..], minProfitBps)
    ensures Reported(found, pairs, symbol, minProfitBps, now)
  {
    found, pairs := [], [];
    for j := i + 1 to |entries|
      invariant pairs + RowReports(entries[i], entries[j..], minProfitBps)
             == RowReports(entries[i], entries[i + 1..], minProfitBps)
      invariant Reported(found, pairs, symbol, minProfitBps, now)
    {
      RowStep(entries[i], entries, j, minProfitBps, pairs);
      var more, morePairs := ComparePair(symbol, entries[i], entries[j], minProfitBps, now);
      ReportedConcat(found, pairs, more, morePairs, symbol, minProfitBps, now);
      found, pairs := found + more, pairs + morePairs;
    }
  }

  method ScanSymbol(symbol: string, entries: seq<Entry>, minProfitBps: real, now: nat)
    returns (found: seq<Opportunity>, ghost pairs: seq<(Entry, Entry)>)
    ensures pairs == AllReports(entries, minProfitBps)
    ensures Reported(found, pairs, symbol, minProfitBps, now)
  {
    found, pairs := [], [];
    if |entries| < 2 {
      assert entries != [] ==> entries[1..] == [];
      return;
    }
    for i := 0 to |entries|
      invariant pairs + AllReports(entries[i..], minProfitBps) == AllReports(entries, minProfitBps)
      invariant Reported(found, pairs, symbol, minProfitBps, now)
    {
      AllStep(entries, i, minProfitBps, pairs);
      var more, morePairs := ScanRow(symbol, entries, i, minProfitBps, now);
      ReportedConcat(found, pairs, more, morePairs, symbol, minProfitBps, now);
      found, pairs := found + more, pairs + morePairs;
    }
  }

  ghost predicate Reported(found: seq<Opportunity>, pairs: seq<(Entry, Entry)>, symbol: string, minProfitBps: real, now: nat) {
    && |found| == |pairs|
    && forall k :: 0 <= k < |pairs| ==>
         && Qualifies(pairs[k].0, pairs[k].1, minProfitBps)
         && found[k] == Report(symbol, pairs[k].0, pairs[k].1, now)
  }

  lemma ReportedConcat(found: seq<Opportunity>, pairs: seq<(Entry, Entry)>, more: seq<Opportunity>,
                       morePairs: seq<(Entry, Entry)>, symbol: string, minProfitBps: real, now: nat)
    requires Reported(found, pairs, symbol, minProfitBps, now)
    requires Reported(more, morePairs, symbol, minProfitBps, now)
    ensures Reported(found + more, pairs + morePairs, symbol, minProfitBps, now)
  {
  }

  lemma RowStep(e: Entry, entries: seq<Entry>, j: nat, minProfitBps: real, pairs: seq<(Entry, Entry)>)
    requires j < |entries|
    ensures pairs + RowReports(e, entries[j..], minProfitBps)
         == (pairs + PairReports(e, entries[j], minProfitBps)) + RowReports(e, entries[j + 1..], minProfitBps)
  {
    assert entries[j..][1..] == entries[j + 1..];
  }

  lemma AllStep(entries: seq<Entry>, i: nat, minProfitBps: real, pairs: seq<(Entry, Entry)>)
    requires i < |entries|
    ensures pairs + AllReports(entries[i..], minProfitBps)
         == (pairs + RowReports(entries[i], entries[i + 1..], minProfitBps)) + AllReports(entries[i + 1..], minProfitBps)
  {
    assert entries[i..][1..] == entries[i + 1..];
  }

  // ----- what the scan means for the books -----

  function TopAsk(b: Book): PriceLevel
    requires b.asks != map[]
  {
    b.asks[Lowest(b.asks.Keys)]
  }

  function TopBid(b: Book): PriceLevel
    requires b.bids != map[]
  {
    b.bids[Highest(b.bids.Keys)]
  }

  /** Buying at the first book's best ask and selling at the second's best bid pays enough. */
  ghost predicate Opportune(buy: Book, sell: Book, minProfitBps: real) {
    && buy.asks != map[] && sell.bids != map[]
    && var ask, bid := TopAsk(buy), TopBid(sell);
    && bid.price > ask.price > 0.0
    && ProfitBps(ask.price, bid.price) >= minProfitBps
    && ask.quantity > 0.0 && bid.quantity > 0.0
  }

  /** The entry is a faithful, sorted copy of the book. */
  ghost predicate Describes(e: Entry, b: LiveBook) {
    && Keyed(b.book.bids) && Keyed(b.book.asks)
    && e.exchange == b.exchange && e.snap.symbol == b.symbol && e.snap.timestampMs == b.updatedMs
    && StrictlyFalling(e.snap.bids) && Lists(e.snap.bids, b.book.bids)
    && StrictlyRising(e.snap.asks) && Lists(e.snap.asks, b.book.asks)
  }

  lemma TopOfSnapshot(e: Entry, b: LiveBook)
    requires Describes(e, b)
    ensures e.snap.asks == [] <==> b.book.asks == map[]
    ensures e.snap.bids == [] <==> b.book.bids == map[]
    ensures e.snap.asks != [] ==> e.snap.asks[0] == TopAsk(b.book)
    ensures e.snap.bids != [] ==> e.snap.bids[0] == TopBid(b.book)
  {
    if e.snap.asks != [] {
      assert e.snap.asks[0].price in b.book.asks;
      var low := TopAsk(b.book);
      assert low in e.snap.asks;
    }
    if e.snap.bids != [] {
      assert e.snap.bids[0].price in b.book.bids;
      var high := TopBid(b.book);
      assert high in e.snap.bids;
    }
  }

  lemma QualifiesMeansOpportune(x: Entry, y: Entry, a: LiveBook, b: LiveBook, minProfitBps: real)
    requires Describes(x, a) && Describes(y, b)
    ensures Qualifies(x, y, minProfitBps) <==> Opportune(a.book, b.book, minProfitBps)
  {
    TopOfSnapshot(x, a);
    TopOfSnapshot(y, b);
  }

  /** Of two uncrossed books at most one direction pays. */
  lemma OneDirectionOnly(a: Book, b: Book, minProfitBps: real)
    requires NotCrossed(a) && NotCrossed(b)
    requires Keyed(a.bids) && Keyed(a.asks) && Keyed(b.bids) && Keyed(b.asks)
    ensures !(Opportune(a, b, minProfitBps) && Opportune(b, a, minProfitBps))
  {
    if a.asks != map[] && a.bids != map[] && b.asks != map[] && b.bids != map[] {
      assert TopBid(a).price < TopAsk(a).price && TopBid(b).price < TopAsk(b).price;
    }
  }

  // ----- buckets -----

  function Bucket(entries: seq<Entry>, normalize: string -> string, symbol: string): seq<Entry> {
    if entries == [] then []
    else
      var last := entries[|entries| - 1];
      Bucket(entries[..|entries| - 1], normalize, symbol) + if normalize(last.snap.symbol) == symbol then [last] else []
  }

  lemma {:induction false} BucketMeaning(entries: seq<Entry>, normalize: string -> string, symbol: string)
    requires Distinct(entries)
    ensures Distinct(Bucket(entries, normalize, symbol))
    ensures forall e :: e in Bucket(entries, normalize, symbol) <==> e in entries && normalize(e.snap.symbol) == symbol
  {
    if entries != [] {
      var n := |entries| - 1;
      BucketMeaning(entries[..n], normalize, symbol);
      assert entries == entries[..n] + [entries[n]];
      assert entries[n] !in entries[..n];
      DistinctConcat(Bucket(entries[..n], normalize, symbol),
                     if normalize(entries[n].snap.symbol) == symbol then [entries[n]] else []);
    }
  }

  // ----- from entries to books -----

  /** Non-empty and updated within the limit. */
  predicate Fresh(b: LiveBook, now: nat) {
    (b.book.bids != map[] || b.book.asks != map[]) && StalenessMs(b.updatedMs, now) <= STALENESS_LIMIT_MS
  }

  /** The ordered pairs the scan must report. */
  ghost predicate IsArbitrage(books: map<BookId, LiveBook>, buy: BookId, sell: BookId,
                              normalize: string -> string, minProfitBps: real, now: nat) {
    && buy in books && sell in books && buy != sell
    && Fresh(books[buy], now) && Fresh(books[sell], now)
    && normalize(books[buy].symbol) == normalize(books[sell].symbol)
    && Opportune(books[buy].book, books[sell].book, minProfitBps)
  }

  ghost function BookReport(buy: LiveBook, sell: LiveBook, normalize: string -> string, now: nat): Opportunity
    requires buy.book.asks != map[] && sell.book.bids != map[] && TopAsk(buy.book).price > 0.0
  {
    var ask, bid := TopAsk(buy.book), TopBid(sell.book);
    Opportunity(normalize(buy.symbol), buy.exchange, sell.exchange, ask.price, bid.price,
                ProfitBps(ask.price, bid.price), Min(ask.quantity, bid.quantity), now)
  }

  /** Exactly the arbitrage pairs, each once, each with its figures. */
  ghost predicate ScanResult(books: map<BookId, LiveBook>, reported: seq<(BookId, BookId)>, found: seq<Opportunity>,
                             normalize: string -> string, minProfitBps: real, now: nat) {
    && Distinct(reported) && |found| == |reported|
    && (forall x, y :: (x, y) in reported <==> IsArbitrage(books, x, y, normalize, minProfitBps, now))
    && (forall k :: 0 <= k < |reported| ==>
          var (x, y) := reported[k];
          IsArbitrage(books, x, y, normalize, minProfitBps, now) && found[k] == BookReport(books[x], books[y], normalize, now))
  }

  /** One faithful entry for every fresh book, and no other. */
  ghost predicate Snapped(entries: seq<Entry>, books: map<BookId, LiveBook>, now: nat) {
    && (forall i, j :: 0 <= i < j < |entries| ==> entries[i].id != entries[j].id)
    && (forall e :: e in entries ==> e.id in books && Describes(e, books[e.id]) && Fresh(books[e.id], now))
    && (forall id :: id in books && Fresh(books[id], now) ==> exists e :: e in entries && e.id == id)
  }

  ghost predicate PairsReported(pairs: seq<(Entry, Entry)>, entries: seq<Entry>, normalize: string -> string,
                                symbols: set<string>, minProfitBps: real) {
    && Distinct(pairs)
    && forall x, y :: (x, y) in pairs <==>
         && x in entries && y in entries && x != y
         && normalize(x.snap.symbol) == normalize(y.snap.symbol) && normalize(x.snap.symbol) in symbols
         && Qualifies(x, y, minProfitBps)
  }

  lemma SymbolDone(pairs: seq<(Entry, Entry)>, entries: seq<Entry>, normalize: string -> string,
                   symbols: set<string>, minProfitBps: real, symbol: string)
    requires Distinct(entries) && PairsReported(pairs, entries, normalize, symbols, minProfitBps)
    requires symbol !in symbols
    ensures PairsReported(pairs + AllReports(Bucket(entries, normalize, symbol), minProfitBps),
                          entries, normalize, symbols + {symbol}, minProfitBps)
  {
    var bucket := Bucket(entries, normalize, symbol);
    BucketMeaning(entries, normalize, symbol);
    AllReportsExact(bucket, minProfitBps);
    var more := AllReports(bucket, minProfitBps);
    forall p | p in pairs ensures p !in more {
      var (x, y) := p;
    }
    DistinctConcat(pairs, more);
  }

  ghost function Ids(pairs: seq<(Entry, Entry)>): seq<(BookId, BookId)> {
    seq(|pairs|, k requires 0 <= k < |pairs| => (pairs[k].0.id, pairs[k].1.id))
  }

  lemma SameId(entries: seq<Entry>, books: map<BookId, LiveBook>, now: nat, x: Entry, y: Entry)
    requires Snapped(entries, books, now) && x in entries && y in entries
    ensures x.id == y.id ==> x == y
  {
    var i :| 0 <= i < |entries| && entries[i] == x;
    var j :| 0 <= j < |entries| && entries[j] == y;
  }

  lemma IdsDistinct(entries: seq<Entry>, books: map<BookId, LiveBook>, now: nat, pairs: seq<(Entry, Entry)>)
    requires Snapped(entries, books, now) && Distinct(pairs)
    requires forall p :: p in pairs ==> p.0 in entries && p.1 in entries
    ensures Distinct(Ids(pairs))
  {
    forall i, j | 0 <= i < j < |pairs| ensures Ids(pairs)[i] != Ids(pairs)[j] {
      assert pairs[i] in pairs && pairs[j] in pairs;
      SameId(entries, books, now, pairs[i].0, pairs[j].0);
      SameId(entries, books, now, pairs[i].1, pairs[j].1);
    }
  }

  /** Two entries qualify as a pair exactly when their books form an arbitrage. */
  lemma EntriesExact(entries: seq<Entry>, books: map<BookId, LiveBook>, now: nat, x: Entry, y: Entry,
                     normalize: string -> string, minProfitBps: real)
    requires Snapped(entries, books, now) && x in entries && y in entries
    ensures IsArbitrage(books, x.id, y.id, normalize, minProfitBps, now) <==>
              && x != y && normalize(x.snap.symbol) == normalize(y.snap.symbol) && Qualifies(x, y, minProfitBps)
  {
    SameId(entries, books, now, x, y);
    QualifiesMeansOpportune(x, y, books[x.id], books[y.id], minProfitBps);
  }

  /** A pair of entries is reported exactly when their books form an arbitrage. */
  lemma IdsExact(entries: seq<Entry>, books: map<BookId, LiveBook>, now: nat, pairs: seq<(Entry, Entry)>,
                 normalize: string -> string, symbols: set<string>, minProfitBps: real, a: BookId, b: BookId)
    requires Snapped(entries, books, now)
    requires PairsReported(pairs, entries, normalize, symbols, minProfitBps)
    requires forall e :: e in entries ==> normalize(e.snap.symbol) in symbols
    ensures (a, b) in Ids(pairs) <==> IsArbitrage(books, a, b, normalize, minProfitBps, now)
  {
    if (a, b) in Ids(pairs) {
      var k :| 0 <= k < |pairs| && Ids(pairs)[k] == (a, b);
      var (x, y) := pairs[k];
      assert (x, y) in pairs;
      EntriesExact(entries, books, now, x, y, normalize, minProfitBps);
    } else if a in books && b in books && Fresh(books[a], now) && Fresh(books[b], now) {
      var x :| x in entries && x.id == a;
      var y :| y in entries && y.id == b;
      EntriesExact(entries, books, now, x, y, normalize, minProfitBps);
      IdsHold(pairs, x, y);
    }
  }

  lemma IdsHold(pairs: seq<(Entry, Entry)>, x: Entry, y: Entry)
    ensures (x, y) in pairs ==> (x.id, y.id) in Ids(pairs)
  {
    if (x, y) in pairs {
      var k :| 0 <= k < |pairs| && pairs[k] == (x, y);
      assert Ids(pairs)[k] == (x.id, y.id);
    }
  }

  /** Each reported figure is that of the books. */
  ghost predicate AllReported(found: seq<Opportunity>, pairs: seq<(Entry, Entry)>, normalize: string -> string,
                              minProfitBps: real, now: nat) {
    && |found| == |pairs|
    && forall k :: 0 <= k < |pairs| ==>
         && Qualifies(pairs[k].0, pairs[k].1, minProfitBps)
         && found[k] == Report(normalize(pairs[k].0.snap.symbol), pairs[k].0, pairs[k].1, now)
  }

  lemma ScanConcludes(entries: seq<Entry>, books: map<BookId, LiveBook>, now: nat, pairs: seq<(Entry, Entry)>,
                      found: seq<Opportunity>, normalize: string -> string, symbols: set<string>, minProfitBps: real)
    requires Snapped(entries, books, now)
    requires PairsReported(pairs, entries, normalize, symbols, minProfitBps)
    requires AllReported(found, pairs, normalize, minProfitBps, now)
    requires forall e :: e in entries ==> normalize(e.snap.symbol) in symbols
    ensures ScanResult(books, Ids(pairs), found, normalize, minProfitBps, now)
  {
    var reported := Ids(pairs);
    forall p | p in pairs ensures p.0 in entries && p.1 in entries { var (x, y) := p; }
    IdsDistinct(entries, books, now, pairs);
    forall a, b ensures (a, b) in reported <==> IsArbitrage(books, a, b, normalize, minProfitBps, now) {
      IdsExact(entries, books, now, pairs, normalize, symbols, minProfitBps, a, b);
    }
    forall k | 0 <= k < |reported|
      ensures IsArbitrage(books, reported[k].0, reported[k].1, normalize, minProfitBps, now)
      ensures found[k] == BookReport(books[reported[k].0], books[reported[k].1], normalize, now)
    {
      assert reported[k] in reported && pairs[k] in pairs;
      assert reported[k] == (reported[k].0, reported[k].1);
      TopOfSnapshot(pairs[k].0, books[reported[k].0]);
      TopOfSnapshot(pairs[k].1, books[reported[k].1]);
    }
  }

  // ----- freshness and bucketing of the snapshots -----

  function FreshOnly(snaps: seq<Entry>, now: nat): seq<Entry> {
    if snaps == [] then []
    else
      var last := snaps[|snaps| - 1];
      FreshOnly(snaps[..|snaps| - 1], now) + if StalenessMs(last.snap.timestampMs, now) > STALENESS_LIMIT_MS then [] else [last]
  }

  ghost predicate IdsApart(snaps: seq<Entry>) {
    forall i, j :: 0 <= i < j < |snaps| ==> snaps[i].id != snaps[j].id
  }

  lemma {:induction false} FreshOnlyMeaning(snaps: seq<Entry>, now: nat)
    requires IdsApart(snaps)
    ensures IdsApart(FreshOnly(snaps, now))
    ensures forall e :: e in FreshOnly(snaps, now) <==> e in snaps && StalenessMs(e.snap.timestampMs, now) <= STALENESS_LIMIT_MS
  {
    if snaps != [] {
      var n := |snaps| - 1;
      FreshOnlyMeaning(snaps[..n], now);
      assert snaps == snaps[..n] + [snaps[n]];
      forall e | e in FreshOnly(snaps[..n], now) ensures e.id != snaps[n].id {
        assert e in snaps[..n];
      }
    }
  }

  /** The buckets hold every kept entry, under its normalised symbol, in order. */
  ghost predicate Bucketed(buckets: map<string, seq<Entry>>, all: seq<Entry>, normalize: string -> string) {
    && (forall n :: n in buckets ==> buckets[n] == Bucket(all, normalize, n))
    && (forall e :: e in all ==> normalize(e.snap.symbol) in buckets)
    && (forall n :: n !in buckets ==> Bucket(all, normalize, n) == [])
  }

  function Put(buckets: map<string, seq<Entry>>, n: string, e: Entry): map<string, seq<Entry>> {
    buckets[n := (if n in buckets then buckets[n] else []) + [e]]
  }

  lemma BucketOfOneMore(all: seq<Entry>, normalize: string -> string, e: Entry, n: string)
    ensures Bucket(all + [e], normalize, n) == Bucket(all, normalize, n) + if normalize(e.snap.symbol) == n then [e] else []
  {
    assert (all + [e])[..|all|] == all;
  }

  lemma BucketedStep(buckets: map<string, seq<Entry>>, all: seq<Entry>, more: seq<Entry>, normalize: string -> string, e: Entry)
    requires Bucketed(buckets, all, normalize) && forall x :: x in more ==> x in all || x == e
    requires forall n :: Bucket(more, normalize, n) ==
               Bucket(all, normalize, n) + if normalize(e.snap.symbol) == n then [e] else []
    ensures Bucketed(Put(buckets, normalize(e.snap.symbol), e), more, normalize)
  {
  }

  lemma FreshOnlyStep(snaps: seq<Entry>, i: nat, now: nat, before: seq<Entry>)
    requires i < |snaps|
    ensures before + FreshOnly(snaps[..i + 1], now)
         == if StalenessMs(snaps[i].snap.timestampMs, now) > STALENESS_LIMIT_MS then before + FreshOnly(snaps[..i], now)
            else before + FreshOnly(snaps[..i], now) + [snaps[i]]
  {
    assert snaps[..i + 1][..i] == snaps[..i];
  }

  /** Fresh snapshots go to the bucket of their normalised symbol, in order. */
  method AddToBuckets(buckets: map<string, seq<Entry>>, snaps: seq<Entry>, now: nat, normalize: string -> string,
                      ghost before: seq<Entry>)
    returns (after: map<string, seq<Entry>>)
    requires Bucketed(buckets, before, normalize)
    ensures Bucketed(after, before + FreshOnly(snaps, now), normalize)
  {
    after := buckets;
    assert before + FreshOnly(snaps[..0], now) == before;
    for i := 0 to |snaps|
      invariant Bucketed(after, before + FreshOnly(snaps[..i], now), normalize)
    {
      var e := snaps[i];
      ghost var all := before + FreshOnly(snaps[..i], now);
      FreshOnlyStep(snaps, i, now, before);
      if StalenessMs(e.snap.timestampMs, now) > STALENESS_LIMIT_MS { continue; }
      forall n
        ensures Bucket(all + [e], normalize, n) == Bucket(all, normalize, n) + if normalize(e.snap.symbol) == n then [e] else []
      {
        BucketOfOneMore(all, normalize, e, n);
      }
      BucketedStep(after, all, all + [e], normalize, e);
      after := Put(after, normalize(e.snap.symbol), e);
    }
    assert snaps[..|snaps|] == snaps;
  }

  ghost predicate Holding(b: Book) {
    b.bids != map[] || b.asks != map[]
  }

  /** One faithful entry for every book that holds anything. */
  ghost predicate SnapsOf(snaps: seq<Entry>, source: map<BookId, LiveBook>) {
    && IdsApart(snaps)
    && (forall e :: e in snaps ==> e.id in source && Describes(e, source[e.id]) && Holding(source[e.id].book))
    && (forall id :: id in source && Holding(source[id].book) ==> exists e :: e in snaps && e.id == id)
  }

  /** One of the books still pending has been looked at: an empty one adds no entry. */
  lemma AddSnap(snaps: seq<Entry>, all: map<BookId, LiveBook>, pending: set<BookId>, e: Entry)
    requires SnapsOf(snaps, all - pending) && e.id in pending && e.id in all && Describes(e, all[e.id])
    ensures SnapsOf(if e.snap.Empty() then snaps else snaps + [e], all - (pending - {e.id}))
  {
    TopOfSnapshot(e, all[e.id]);
    var less, more := all - pending, all - (pending - {e.id});
    var grown := if e.snap.Empty() then snaps else snaps + [e];
    assert forall id :: id in more <==> id in less || id == e.id;
    forall x | x in snaps ensures x.id in more && Describes(x, more[x.id]) && Holding(more[x.id].book) && x.id != e.id {
    }
    forall id | id in more && Holding(more[id].book) ensures exists x :: x in grown && x.id == id {
      if id == e.id {
        assert grown[|snaps|] == e;
      } else {
        assert id in less && Holding(less[id].book);
        var x :| x in snaps && x.id == id;
        assert x in grown;
      }
    }
  }

  /** The fresh snapshots of two disjoint maps describe exactly the fresh books of both. */
  lemma SnappedBoth(ws: map<BookId, LiveBook>, fix: map<BookId, LiveBook>,
                    wsSnaps: seq<Entry>, fixSnaps: seq<Entry>, now: nat)
    requires SnapsOf(wsSnaps, ws) && SnapsOf(fixSnaps, fix) && ws.Keys !! fix.Keys
    ensures Snapped(FreshOnly(wsSnaps, now) + FreshOnly(fixSnaps, now), ws + fix, now)
    ensures Distinct(FreshOnly(wsSnaps, now) + FreshOnly(fixSnaps, now))
  {
    var first, second := FreshOnly(wsSnaps, now), FreshOnly(fixSnaps, now);
    FreshSnapsDescribe(ws, wsSnaps, now);
    FreshSnapsDescribe(fix, fixSnaps, now);
    assert forall e :: e in first + second <==> e in first || e in second;
    IdsApartConcat(first, second);
    forall id | id in ws + fix && Fresh((ws + fix)[id], now) ensures exists e: Entry :: e in first + second && e.id == id {
      FreshEntry(ws, fix, wsSnaps, fixSnaps, now, id);
    }
  }

  lemma FreshSnapsDescribe(source: map<BookId, LiveBook>, snaps: seq<Entry>, now: nat)
    requires SnapsOf(snaps, source)
    ensures IdsApart(FreshOnly(snaps, now))
    ensures forall e :: e in FreshOnly(snaps, now) ==>
              e.id in source && Describes(e, source[e.id]) && Fresh(source[e.id], now)
  {
    FreshOnlyMeaning(snaps, now);
  }

  lemma IdsApartConcat(s: seq<Entry>, t: seq<Entry>)
    requires IdsApart(s) && IdsApart(t)
    requires forall x, y :: x in s && y in t ==> x.id != y.id
    ensures IdsApart(s + t)
  {
    forall i, j | 0 <= i < j < |s + t| ensures (s + t)[i].id != (s + t)[j].id {
      if i < |s| <= j { assert (s + t)[i] in s && (s + t)[j] == t[j - |s|]; }
    }
  }

  lemma FreshEntry(ws: map<BookId, LiveBook>, fix: map<BookId, LiveBook>,
                   wsSnaps: seq<Entry>, fixSnaps: seq<Entry>, now: nat, id: BookId)
    requires SnapsOf(wsSnaps, ws) && SnapsOf(fixSnaps, fix) && ws.Keys !! fix.Keys
    requires id in ws + fix && Fresh((ws + fix)[id], now)
    ensures exists e :: e in FreshOnly(wsSnaps, now) + FreshOnly(fixSnaps, now) && e.id == id
  {
    FreshOnlyMeaning(wsSnaps, now);
    FreshOnlyMeaning(fixSnaps, now);
    if id in fix {
      var e :| e in fixSnaps && e.id == id;
      assert e in FreshOnly(fixSnaps, now);
    } else {
      var e :| e in wsSnaps && e.id == id;
      assert e in FreshOnly(wsSnaps, now);
    }
  }

  lemma SymbolReported(entries: seq<Entry>, found: seq<Opportunity>, symbol: string,
                       normalize: string -> string, minProfitBps: real, now: nat)
    requires Distinct(entries)
    requires Reported(found, AllReports(Bucket(entries, normalize, symbol), minProfitBps), symbol, minProfitBps, now)
    ensures AllReported(found, AllReports(Bucket(entries, normalize, symbol), minProfitBps), normalize, minProfitBps, now)
  {
    var pairs := AllReports(Bucket(entries, normalize, symbol), minProfitBps);
    forall k | 0 <= k < |pairs| ensures normalize(pairs[k].0.snap.symbol) == symbol {
      BucketMeaning(entries, normalize, symbol);
      AllReportsExact(Bucket(entries, normalize, symbol), minProfitBps);
      assert (pairs[k].0, pairs[k].1) in pairs;
    }
  }

  lemma AllReportedConcat(found: seq<Opportunity>, pairs: seq<(Entry, Entry)>, more: seq<Opportunity>,
                          morePairs: seq<(Entry, Entry)>, normalize: string -> string, minProfitBps: real, now: nat)
    requires AllReported(found, pairs, normalize, minProfitBps, now)
    requires AllReported(more, morePairs, normalize, minProfitBps, now)
    ensures AllReported(found + more, pairs + morePairs, normalize, minProfitBps, now)
  {
  }

  /** All pairs, symbol by symbol in whatever order the buckets are visited. */
  method ComparePairs(buckets: map<string, seq<Entry>>, normalize: string -> string, minProfitBps: real, now: nat,
                      ghost entries: seq<Entry>)
    returns (found: seq<Opportunity>, ghost pairs: seq<(Entry, Entry)>)
    requires Distinct(entries) && Bucketed(buckets, entries, normalize)
    ensures PairsReported(pairs, entries, normalize, buckets.Keys, minProfitBps)
    ensures AllReported(found, pairs, normalize, minProfitBps, now)
  {
    found, pairs := [], [];
    var rest := buckets.Keys;
    while rest != {}
      invariant rest <= buckets.Keys
      invariant PairsReported(pairs, entries, normalize, buckets.Keys - rest, minProfitBps)
      invariant AllReported(found, pairs, normalize, minProfitBps, now)
      decreases |rest|
    {
      var symbol: string :| symbol in rest;
      var more, morePairs := ScanSymbol(symbol, buckets[symbol], minProfitBps, now);
      SymbolDone(pairs, entries, normalize, buckets.Keys - rest, minProfitBps, symbol);
      SymbolReported(entries, more, symbol, normalize, minProfitBps, now);
      AllReportedConcat(found, pairs, more, morePairs, normalize, minProfitBps, now);
      found, pairs := found + more, pairs + morePairs;
      assert buckets.Keys - (rest - {symbol}) == (buckets.Keys - rest) + {symbol};
      rest := rest - {symbol};
    }
    assert buckets.Keys - rest == buckets.Keys;
  }

  /** The scan over the snapshots of both maps. */
  method Scan(wsSnaps: seq<Entry>, fixSnaps: seq<Entry>, normalize: string -> string, minProfitBps: real, now: nat,
              ghost ws: map<BookId, LiveBook>, ghost fix: map<BookId, LiveBook>)
    returns (found: seq<Opportunity>, ghost pairs: seq<(BookId, BookId)>)
    requires SnapsOf(wsSnaps, ws) && SnapsOf(fixSnaps, fix) && ws.Keys !! fix.Keys
    ensures ScanResult(ws + fix, pairs, found, normalize, minProfitBps, now)
  {
    var buckets := AddToBuckets(map[], wsSnaps, now, normalize, []);
    assert [] + FreshOnly(wsSnaps, now) == FreshOnly(wsSnaps, now);
    buckets := AddToBuckets(buckets, fixSnaps, now, normalize, FreshOnly(wsSnaps, now));
    SnappedBoth(ws, fix, wsSnaps, fixSnaps, now);
    ghost var entries := FreshOnly(wsSnaps, now) + FreshOnly(fixSnaps, now);
    ghost var entryPairs;
    found, entryPairs := ComparePairs(buckets, normalize, minProfitBps, now, entries);
    ScanConcludes(entries, ws + fix, now, entryPairs, found, normalize, buckets.Keys, minProfitBps);
    pairs := Ids(entryPairs);
  }
}
