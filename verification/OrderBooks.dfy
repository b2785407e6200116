/** The L2 order book of src/order_book.cpp.  Prices and quantities are exact reals; the
    clock is passed in. */
module OrderBooks {
  import opened FixMessages
  import opened Optional

  datatype Side = Bid | Ask

  /** Any real.  The constraint excludes nothing: a subset type keeps extensionality of maps
      and sets keyed by prices within the verifier's reach. */
  type Price = p: real | p < 0.0 || p >= 0.0 witness 0.0

  datatype PriceLevel = PriceLevel(price: Price, quantity: real, orderCount: int)

  type Levels = map<Price, PriceLevel>

  /** What a book holds, price by price. */
  datatype Book = Book(bids: Levels, asks: Levels)

  const EMPTY_BOOK := Book(map[], map[])

  /** Every level sits at its own price. */
  ghost predicate Keyed(m: Levels) {
    forall p :: p in m ==> m[p].price == p
  }

  // ----- best prices -----

  ghost predicate IsHighest(p: Price, ps: set<Price>) {
    p in ps && forall q :: q in ps ==> q <= p
  }

  ghost predicate IsLowest(p: Price, ps: set<Price>) {
    p in ps && forall q :: q in ps ==> p <= q
  }

  lemma {:induction false} HighestExists(ps: set<Price>)
    requires ps != {}
    ensures exists p :: IsHighest(p, ps)
    decreases |ps|
  {
    var p :| p in ps;
    if ps == {p} {
      assert IsHighest(p, ps);
    } else {
      var rest := ps - {p};
      HighestExists(rest);
      var q :| IsHighest(q, rest);
      assert ps == rest + {p};
      assert IsHighest(if q > p then q else p, ps);
    }
  }

  lemma {:induction false} LowestExists(ps: set<Price>)
    requires ps != {}
    ensures exists p :: IsLowest(p, ps)
    decreases |ps|
  {
    var p :| p in ps;
    if ps == {p} {
      assert IsLowest(p, ps);
    } else {
      var rest := ps - {p};
      LowestExists(rest);
      var q :| IsLowest(q, rest);
      assert ps == rest + {p};
      assert IsLowest(if q < p then q else p, ps);
    }
  }

  /** begin() of the descending bid map. */
  function Highest(ps: set<Price>): (p: Price)
    requires ps != {}
    ensures IsHighest(p, ps)
  {
    HighestExists(ps);
    var p :| p in ps && forall q :: q in ps ==> q <= p;
    p
  }

  /** begin() of the ascending ask map. */
  function Lowest(ps: set<Price>): (p: Price)
    requires ps != {}
    ensures IsLowest(p, ps)
  {
    LowestExists(ps);
    var p :| p in ps && forall q :: q in ps ==> p <= q;
    p
  }

  function BestBid(b: Book): real { if b.bids == map[] then 0.0 else b.bids[Highest(b.bids.Keys)].price }

  function BestAsk(b: Book): real { if b.asks == map[] then 0.0 else b.asks[Lowest(b.asks.Keys)].price }

  function SpreadBps(b: Book): real {
    if b.bids == map[] || b.asks == map[] then 0.0
    else if BestBid(b) <= 0.0 then 0.0
    else (BestAsk(b) - BestBid(b)) / BestBid(b) * 10000.0
  }

  // ----- single level changes -----

  function SetLevel(b: Book, side: Side, l: PriceLevel): Book {
    match side
    case Bid => b.(bids := b.bids[l.price := l])
    case Ask => b.(asks := b.asks[l.price := l])
  }

  function DeleteLevel(b: Book, side: Side, price: Price): Book {
    match side
    case Bid => b.(bids := b.bids - {price})
    case Ask => b.(asks := b.asks - {price})
  }

  function SideOf(b: Book, side: Side): Levels {
    if side.Bid? then b.bids else b.asks
  }

  /** The book without the bids that reach the best ask. */
  function Uncrossed(b: Book): Book {
    if b.asks == map[] then b
    else b.(bids := map p | p in b.bids && p < Lowest(b.asks.Keys) :: b.bids[p])
  }

  /** Every bid is strictly below every ask. */
  ghost predicate NotCrossed(b: Book) {
    forall p, q :: p in b.bids && q in b.asks ==> p < q
  }

  lemma UncrossedMeaning(b: Book)
    ensures Uncrossed(b).asks == b.asks
    ensures forall p :: p in Uncrossed(b).bids <==> p in b.bids && forall q :: q in b.asks ==> p < q
    ensures forall p :: p in Uncrossed(b).bids ==> Uncrossed(b).bids[p] == b.bids[p]
    ensures NotCrossed(Uncrossed(b))
    ensures NotCrossed(b) ==> Uncrossed(b) == b
  {
    if b.asks != map[] {
      assert IsLowest(Lowest(b.asks.Keys), b.asks.Keys);
    }
  }

  lemma UncrossedSpread(b: Book)
    requires Keyed(b.bids) && Keyed(b.asks) && NotCrossed(b)
    ensures SpreadBps(b) >= 0.0
    ensures b.bids != map[] && b.asks != map[] ==> BestBid(b) < BestAsk(b)
  {
    if b.bids != map[] && b.asks != map[] && BestBid(b) > 0.0 {
      Quotient(BestAsk(b) - BestBid(b), BestBid(b));
    }
  }

  /** The spread is the gap between the best prices in ten-thousandths of the best bid. */
  lemma SpreadMeaning(b: Book)
    requires b.bids != map[] && b.asks != map[] && BestBid(b) > 0.0
    ensures SpreadBps(b) * BestBid(b) == 10000.0 * (BestAsk(b) - BestBid(b))
  {
    var r := (BestAsk(b) - BestBid(b)) / BestBid(b);
    assert r * BestBid(b) == BestAsk(b) - BestBid(b);
    assert r * 10000.0 * BestBid(b) == 10000.0 * (r * BestBid(b));
  }

  lemma Quotient(x: real, y: real)
    requires x >= 0.0 && y > 0.0
    ensures x / y >= 0.0
  {
  }

  // ----- batches of levels -----

  /** The delta loop: a zero quantity deletes the level, any other sets it. */
  function Overlay(m: Levels, levels: seq<PriceLevel>): Levels
    decreases |levels|
  {
    if levels == [] then m
    else
      var l := levels[|levels| - 1];
      var before := Overlay(m, levels[..|levels| - 1]);
      if l.quantity == 0.0 then before - {l.price} else before[l.price := l]
  }

  /** The snapshot loop: every level is set, whatever its quantity. */
  function Fill(levels: seq<PriceLevel>): Levels
    decreases |levels|
  {
    if levels == [] then map[]
    else
      var l := levels[|levels| - 1];
      Fill(levels[..|levels| - 1])[l.price := l]
  }

  function Lookup(m: Levels, p: Price): Option<PriceLevel> {
    if p in m then Some(m[p]) else None
  }

  ghost predicate IsLastWrite(levels: seq<PriceLevel>, p: Price, i: nat) {
    i < |levels| && levels[i].price == p && forall j :: i < j < |levels| ==> levels[j].price != p
  }

  ghost predicate Writes(levels: seq<PriceLevel>, p: Price) {
    exists i: nat :: i < |levels| && levels[i].price == p
  }

  lemma WritesPrefix(levels: seq<PriceLevel>, n: nat, p: Price)
    requires n <= |levels|
    ensures Writes(levels[..n], p) ==> Writes(levels, p)
  {
    if Writes(levels[..n], p) {
      var i: nat :| i < n && levels[..n][i].price == p;
      assert levels[i].price == p;
    }
  }

  // Last write wins: a price named in the batch ends as its last mention says (gone, in a
  // delta, if that quantity is zero), and every other price keeps what it had.

  lemma {:induction false} OverlayUntouched(m: Levels, levels: seq<PriceLevel>, p: Price)
    requires !Writes(levels, p)
    ensures Lookup(Overlay(m, levels), p) == Lookup(m, p)
    decreases |levels|
  {
    if levels != [] {
      var n := |levels| - 1;
      assert levels[n].price != p;
      WritesPrefix(levels, n, p);
      OverlayUntouched(m, levels[..n], p);
    }
  }

  lemma {:induction false} OverlayLastWrite(m: Levels, levels: seq<PriceLevel>, p: Price, i: nat)
    requires IsLastWrite(levels, p, i)
    ensures Lookup(Overlay(m, levels), p) == if levels[i].quantity == 0.0 then None else Some(levels[i])
    decreases |levels|
  {
    var n := |levels| - 1;
    if i < n {
      assert levels[n].price != p;
      OverlayLastWrite(m, levels[..n], p, i);
    }
  }

  lemma {:induction false} FillUntouched(levels: seq<PriceLevel>, p: Price)
    requires !Writes(levels, p)
    ensures p !in Fill(levels)
    decreases |levels|
  {
    if levels != [] {
      var n := |levels| - 1;
      assert levels[n].price != p;
      WritesPrefix(levels, n, p);
      FillUntouched(levels[..n], p);
    }
  }

  lemma {:induction false} FillLastWrite(levels: seq<PriceLevel>, p: Price, i: nat)
    requires IsLastWrite(levels, p, i)
    ensures Lookup(Fill(levels), p) == Some(levels[i])
    decreases |levels|
  {
    var n := |levels| - 1;
    if i < n {
      assert levels[n].price != p;
      FillLastWrite(levels[..n], p, i);
    }
  }

  lemma {:induction false} LastWriteExists(levels: seq<PriceLevel>, p: Price) returns (i: nat)
    requires Writes(levels, p)
    ensures IsLastWrite(levels, p, i)
    decreases |levels|
  {
    var n := |levels| - 1;
    if levels[n].price == p {
      i := n;
    } else {
      assert Writes(levels[..n], p);
      i := LastWriteExists(levels[..n], p);
    }
  }

  lemma {:induction false} OverlayKeyed(m: Levels, levels: seq<PriceLevel>)
    requires Keyed(m)
    ensures Keyed(Overlay(m, levels)) && Keyed(Fill(levels))
    decreases |levels|
  {
    if levels != [] { OverlayKeyed(m, levels[..|levels| - 1]); }
  }

  // ----- FIX entries -----

  /** One entry of a 35=W message; trades are not stored. */
  function SnapshotEntry(b: Book, e: MDEntry): Book {
    var l := PriceLevel(e.price, e.quantity, 0);
    if e.entryType == 0 then SetLevel(b, Bid, l)
    else if e.entryType == 1 then SetLevel(b, Ask, l)
    else b
  }

  /** One entry of a 35=X message; unknown actions change nothing. */
  function UpdateEntry(b: Book, e: MDEntry): Book {
    if e.entryType != 0 && e.entryType != 1 then b
    else
      var side := if e.entryType == 0 then Bid else Ask;
      if e.updateAction == 0 || e.updateAction == 1 then SetLevel(b, side, PriceLevel(e.price, e.quantity, 0))
      else if e.updateAction == 2 then DeleteLevel(b, side, e.price)
      else b
  }

  function ApplyEntries(b: Book, entries: seq<MDEntry>, refresh: bool): Book
    decreases |entries|
  {
    if entries == [] then b
    else
      var before := ApplyEntries(b, entries[..|entries| - 1], refresh);
      var e := entries[|entries| - 1];
      if refresh then SnapshotEntry(before, e) else UpdateEntry(before, e)
  }

  /** Entry i of a message is about the level at price p of the side with that entry type, and
      says what becomes of it: in a 35=X message only with an action of 0, 1 or 2. */
  ghost predicate SaysOf(entries: seq<MDEntry>, isSnapshot: bool, entryType: int, p: Price, i: nat) {
    && i < |entries| && entries[i].entryType == entryType && entries[i].price == p
    && (isSnapshot || 0 <= entries[i].updateAction <= 2)
  }

  ghost predicate LastToSay(entries: seq<MDEntry>, isSnapshot: bool, entryType: int, p: Price, i: nat) {
    && SaysOf(entries, isSnapshot, entryType, p, i)
    && forall j: nat :: i < j ==> !SaysOf(entries, isSnapshot, entryType, p, j)
  }

  /** A level as a message leaves it.  The last entry that says something of it decides: it
      removes the level (279=2 of a 35=X message) or sets exactly its own price and quantity;
      a level no entry speaks of is kept by 35=X and forgotten by 35=W. */
  ghost predicate LeftByEntries(before: Option<PriceLevel>, entries: seq<MDEntry>, isSnapshot: bool, entryType: int,
                                p: Price, after: Option<PriceLevel>) {
    if exists i: nat :: SaysOf(entries, isSnapshot, entryType, p, i) then
      forall i: nat :: LastToSay(entries, isSnapshot, entryType, p, i) ==>
        after == if !isSnapshot && entries[i].updateAction == 2 then None
                 else Some(PriceLevel(p, entries[i].quantity, 0))
    else after == if isSnapshot then None else before
  }

  /** Entry type 0 is a bid, 1 an ask. */
  ghost predicate BookLeftByEntries(before: Book, entries: seq<MDEntry>, isSnapshot: bool, after: Book) {
    forall p: Price ::
      && LeftByEntries(Lookup(before.bids, p), entries, isSnapshot, 0, p, Lookup(after.bids, p))
      && LeftByEntries(Lookup(before.asks, p), entries, isSnapshot, 1, p, Lookup(after.asks, p))
  }

  lemma LastEntryDecides(before: Option<PriceLevel>, middle: Option<PriceLevel>, after: Option<PriceLevel>,
                         entries: seq<MDEntry>, e: MDEntry, isSnapshot: bool, entryType: int, p: Price)
    requires LeftByEntries(before, entries, isSnapshot, entryType, p, middle)
    requires after ==
             if e.entryType != entryType || e.price != p then middle
             else if isSnapshot then Some(PriceLevel(p, e.quantity, 0))
             else if e.updateAction == 2 then None
             else if 0 <= e.updateAction <= 1 then Some(PriceLevel(p, e.quantity, 0)) else middle
    ensures LeftByEntries(before, entries + [e], isSnapshot, entryType, p, after)
  {
    var all, n := entries + [e], |entries|;
    assert all[n] == e;
    forall i: nat | i < n
      ensures SaysOf(all, isSnapshot, entryType, p, i) <==> SaysOf(entries, isSnapshot, entryType, p, i)
    {
      assert all[i] == entries[i];
    }
    if SaysOf(all, isSnapshot, entryType, p, n) {
      assert forall i: nat :: i < n ==> !LastToSay(all, isSnapshot, entryType, p, i);
    } else {
      forall i: nat | LastToSay(all, isSnapshot, entryType, p, i)
        ensures after == if !isSnapshot && all[i].updateAction == 2 then None
                         else Some(PriceLevel(p, all[i].quantity, 0))
      {
        assert LastToSay(entries, isSnapshot, entryType, p, i);
      }
    }
  }

  /** The last word on every level of both sides, in either kind of message. */
  lemma {:induction false} EntriesMeaning(b: Book, entries: seq<MDEntry>, isSnapshot: bool)
    ensures BookLeftByEntries(b, entries, isSnapshot, ApplyEntries(if isSnapshot then EMPTY_BOOK else b, entries, isSnapshot))
    decreases |entries|
  {
    var start := if isSnapshot then EMPTY_BOOK else b;
    if entries != [] {
      var n := |entries| - 1;
      var e := entries[n];
      EntriesMeaning(b, entries[..n], isSnapshot);
      var middle := ApplyEntries(start, entries[..n], isSnapshot);
      var after := ApplyEntries(start, entries, isSnapshot);
      assert entries == entries[..n] + [e];
      forall p: Price
        ensures LeftByEntries(Lookup(b.bids, p), entries, isSnapshot, 0, p, Lookup(after.bids, p))
        ensures LeftByEntries(Lookup(b.asks, p), entries, isSnapshot, 1, p, Lookup(after.asks, p))
      {
        LastEntryDecides(Lookup(b.bids, p), Lookup(middle.bids, p), Lookup(after.bids, p), entries[..n], e, isSnapshot, 0, p);
        LastEntryDecides(Lookup(b.asks, p), Lookup(middle.asks, p), Lookup(after.asks, p), entries[..n], e, isSnapshot, 1, p);
      }
    }
  }

  // ----- sorted views -----

  ghost predicate StrictlyFalling(s: seq<PriceLevel>) {
    forall i, j :: 0 <= i < j < |s| ==> s[i].price > s[j].price
  }

  ghost predicate StrictlyRising(s: seq<PriceLevel>) {
    forall i, j :: 0 <= i < j < |s| ==> s[i].price < s[j].price
  }

  /** The list holds exactly the levels of the map. */
  ghost predicate Lists(s: seq<PriceLevel>, m: Levels) {
    && |s| == |m|
    && (forall i :: 0 <= i < |s| ==> s[i].price in m && m[s[i].price] == s[i])
    && (forall p :: p in m ==> m[p] in s)
  }

  /** At most one list does both. */
  lemma {:induction false} StrictlyFallingUnique(s: seq<PriceLevel>, t: seq<PriceLevel>)
    requires StrictlyFalling(s) && StrictlyFalling(t)
    requires forall l :: l in s <==> l in t
    ensures s == t
    decreases |s|
  {
    assert s != [] ==> s[0] in s;
    assert t != [] ==> t[0] in t;
    if s != [] && t != [] {
      assert s[0] == t[0];
      forall l ensures l in s[1..] <==> l in t[1..] {
        assert l in s[1..] ==> l in s && l.price < s[0].price;
        assert l in t[1..] ==> l in t && l.price < s[0].price;
        assert l in s && l != s[0] ==> l in s[1..];
        assert l in t && l != t[0] ==> l in t[1..];
      }
      StrictlyFallingUnique(s[1..], t[1..]);
    }
  }

  /** At most one list does both. */
  lemma {:induction false} StrictlyRisingUnique(s: seq<PriceLevel>, t: seq<PriceLevel>)
    requires StrictlyRising(s) && StrictlyRising(t)
    requires forall l :: l in s <==> l in t
    ensures s == t
    decreases |s|
  {
    assert s != [] ==> s[0] in s;
    assert t != [] ==> t[0] in t;
    if s != [] && t != [] {
      assert s[0] == t[0];
      forall l ensures l in s[1..] <==> l in t[1..] {
        assert l in s[1..] ==> l in s && l.price > s[0].price;
        assert l in t[1..] ==> l in t && l.price > s[0].price;
        assert l in s && l != s[0] ==> l in s[1..];
        assert l in t && l != t[0] ==> l in t[1..];
      }
      StrictlyRisingUnique(s[1..], t[1..]);
    }
  }

  /** Of the map's levels those in `levels` have been copied, those in `rest` have not. */
  ghost predicate Copied(m: Levels, levels: seq<PriceLevel>, rest: Levels) {
    Counted(m, levels, rest) && Taken(m, levels) && Found(m, levels, rest)
  }

  ghost predicate Counted(m: Levels, levels: seq<PriceLevel>, rest: Levels) {
    |levels| + |rest| == |m| && forall p :: p in rest ==> p in m && rest[p] == m[p]
  }

  ghost predicate Taken(m: Levels, levels: seq<PriceLevel>) {
    forall i :: 0 <= i < |levels| ==> levels[i].price in m && m[levels[i].price] == levels[i]
  }

  ghost predicate Found(m: Levels, levels: seq<PriceLevel>, rest: Levels) {
    forall p :: p in m ==> p in rest || m[p] in levels
  }

  lemma CopyCounts(m: Levels, levels: seq<PriceLevel>, rest: Levels, p: Price)
    requires Counted(m, levels, rest) && p in rest
    ensures |rest - {p}| == |rest| - 1 && Counted(m, levels + [rest[p]], rest - {p})
  {
    var fewer := rest - {p};
    assert rest.Keys == fewer.Keys + {p};
    assert |rest| == |rest.Keys| && |fewer| == |fewer.Keys|;
  }

  lemma CopyFinds(m: Levels, levels: seq<PriceLevel>, rest: Levels, p: Price)
    requires Found(m, levels, rest) && p in rest && p in m && rest[p] == m[p]
    ensures Found(m, levels + [rest[p]], rest - {p})
  {
    var more := levels + [rest[p]];
    assert more[|levels|] == m[p];
    forall q | q in m
      ensures q in rest - {p} || m[q] in more
    {
      assert m[q] in levels ==> m[q] in more;
    }
  }

  lemma CopyStep(m: Levels, levels: seq<PriceLevel>, rest: Levels, p: Price)
    requires Keyed(m) && Copied(m, levels, rest) && p in rest
    ensures Keyed(rest) && |rest - {p}| < |rest|
    ensures Copied(m, levels + [rest[p]], rest - {p})
  {
    CopyCounts(m, levels, rest, p);
    CopyFinds(m, levels, rest, p);
  }

  /** Walking the map in falling order so far gave `levels`; `rest` is still to come. */
  ghost predicate CopiedFalling(m: Levels, levels: seq<PriceLevel>, rest: Levels) {
    StrictlyFalling(levels) && Copied(m, levels, rest) && AllFallingTo(levels, rest)
  }

  ghost predicate AllFallingTo(levels: seq<PriceLevel>, rest: Levels) {
    forall i, p :: 0 <= i < |levels| && p in rest ==> p < levels[i].price
  }

  lemma FallingOn(levels: seq<PriceLevel>, rest: Levels, p: Price)
    requires Keyed(rest) && StrictlyFalling(levels) && AllFallingTo(levels, rest) && IsHighest(p, rest.Keys)
    ensures StrictlyFalling(levels + [rest[p]])
  {
    var more := levels + [rest[p]];
    forall i, j | 0 <= i < j < |more|
      ensures more[j].price < more[i].price
    {
      assert j == |levels| ==> more[j].price == p;
    }
  }

  lemma FallingFurther(levels: seq<PriceLevel>, rest: Levels, p: Price)
    requires Keyed(rest) && AllFallingTo(levels, rest) && IsHighest(p, rest.Keys)
    ensures AllFallingTo(levels + [rest[p]], rest - {p})
  {
    var more := levels + [rest[p]];
    forall i, q | 0 <= i < |more| && q in rest - {p}
      ensures q < more[i].price
    {
      assert q in rest && q != p;
    }
  }

  lemma CopyFallingStep(m: Levels, levels: seq<PriceLevel>, rest: Levels, p: Price)
    requires Keyed(m) && CopiedFalling(m, levels, rest) && IsHighest(p, rest.Keys)
    ensures |rest - {p}| < |rest|
    ensures CopiedFalling(m, levels + [rest[p]], rest - {p})
  {
    CopyStep(m, levels, rest, p);
    FallingOn(levels, rest, p);
    FallingFurther(levels, rest, p);
  }

  /** Walking the map in rising order so far gave `levels`; `rest` is still to come. */
  ghost predicate CopiedRising(m: Levels, levels: seq<PriceLevel>, rest: Levels) {
    StrictlyRising(levels) && Copied(m, levels, rest) && AllRisingTo(levels, rest)
  }

  ghost predicate AllRisingTo(levels: seq<PriceLevel>, rest: Levels) {
    forall i, p :: 0 <= i < |levels| && p in rest ==> p > levels[i].price
  }

  lemma RisingOn(levels: seq<PriceLevel>, rest: Levels, p: Price)
    requires Keyed(rest) && StrictlyRising(levels) && AllRisingTo(levels, rest) && IsLowest(p, rest.Keys)
    ensures StrictlyRising(levels + [rest[p]])
  {
    var more := levels + [rest[p]];
    forall i, j | 0 <= i < j < |more|
      ensures more[j].price > more[i].price
    {
      assert j == |levels| ==> more[j].price == p;
    }
  }

  lemma RisingFurther(levels: seq<PriceLevel>, rest: Levels, p: Price)
    requires Keyed(rest) && AllRisingTo(levels, rest) && IsLowest(p, rest.Keys)
    ensures AllRisingTo(levels + [rest[p]], rest - {p})
  {
    var more := levels + [rest[p]];
    forall i, q | 0 <= i < |more| && q in rest - {p}
      ensures q > more[i].price
    {
      assert q in rest && q != p;
    }
  }

  lemma CopyRisingStep(m: Levels, levels: seq<PriceLevel>, rest: Levels, p: Price)
    requires Keyed(m) && CopiedRising(m, levels, rest) && IsLowest(p, rest.Keys)
    ensures |rest - {p}| < |rest|
    ensures CopiedRising(m, levels + [rest[p]], rest - {p})
  {
    CopyStep(m, levels, rest, p);
    RisingOn(levels, rest, p);
    RisingFurther(levels, rest, p);
  }

  datatype Snapshot = Snapshot(
    symbol: string,
    exchange: string,
    timestampMs: nat,
    isSnapshot: bool,
    bids: seq<PriceLevel>,
    asks: seq<PriceLevel>)
  {
    predicate Empty() { bids == [] && asks == [] }
  }

  // ----- the book -----

  class OrderBook {
    var symbol: string
    const exchange: string
    var bids: Levels
    var asks: Levels
    var lastUpdateMs: nat
    var snapshotCount: nat
    var updateCount: nat

    ghost predicate Valid()
      reads this
    {
      Keyed(bids) && Keyed(asks)
    }

    function Contents(): Book
      reads this
    {
      Book(bids, asks)
    }

    constructor (symbol: string, exchange: string)
      ensures Valid() && Contents() == EMPTY_BOOK
      ensures this.symbol == symbol && this.exchange == exchange
      ensures lastUpdateMs == snapshotCount == updateCount == 0
    {
      this.symbol, this.exchange := symbol, exchange;
      bids, asks := map[], map[];
      lastUpdateMs, snapshotCount, updateCount := 0, 0, 0;
    }

    method SetLevelAt(side: Side, price: Price, quantity: real, orderCount: int, now: nat)
      requires Valid()
      modifies this`bids, this`asks, this`lastUpdateMs
      ensures Valid() && lastUpdateMs == now
      ensures Contents() == SetLevel(old(Contents()), side, PriceLevel(price, quantity, orderCount))
    {
      var level := PriceLevel(price, quantity, orderCount);
      if side.Bid? { bids := bids[price := level]; } else { asks := asks[price := level]; }
      lastUpdateMs := now;
    }

    method DeleteLevelAt(side: Side, price: Price, now: nat)
      requires Valid()
      modifies this`bids, this`asks, this`lastUpdateMs
      ensures Valid() && lastUpdateMs == now
      ensures Contents() == DeleteLevel(old(Contents()), side, price)
    {
      if side.Bid? { bids := bids - {price}; } else { asks := asks - {price}; }
      lastUpdateMs := now;
    }

    method Clear(now: nat)
      modifies this`bids, this`asks, this`lastUpdateMs
      ensures Valid() && Contents() == EMPTY_BOOK && lastUpdateMs == now
    {
      bids, asks := map[], map[];
      lastUpdateMs := now;
    }

    /** Erase best bids while they reach the best ask. */
    method PruneCrossed()
      requires Valid()
      modifies this`bids
      ensures Valid() && Contents() == Uncrossed(old(Contents()))
    {
      ghost var before := Contents();
      while bids != map[] && asks != map[] && Highest(bids.Keys) >= Lowest(asks.Keys)
        invariant asks == before.asks
        invariant forall p :: p in bids ==> p in before.bids && bids[p] == before.bids[p]
        invariant forall p :: p in before.bids && p !in bids ==> asks != map[] && p >= Lowest(asks.Keys)
        decreases |bids|
      {
        var top := Highest(bids.Keys);
        assert bids.Keys == (bids - {top}).Keys + {top};
        bids := bids - {top};
      }
      ghost var kept := Uncrossed(before).bids;
      if asks != map[] && bids != map[] {
        assert IsHighest(Highest(bids.Keys), bids.Keys);
      }
      assert bids.Keys == kept.Keys;
      assert bids == kept;
    }

    method ApplySnapshot(msg: FixMessage, now: nat)
      requires Valid()
      modifies this
      ensures Valid()
      ensures !msg.msgType.MarketDataSnapshot? ==> unchanged(this)
      ensures msg.msgType.MarketDataSnapshot? ==>
                && Contents() == ApplyEntries(EMPTY_BOOK, msg.entries, true)
                && BookLeftByEntries(old(Contents()), msg.entries, true, Contents())
                && lastUpdateMs == now && snapshotCount == old(snapshotCount) + 1
                && updateCount == old(updateCount)
                && symbol == if old(symbol) == "" then msg.symbol else old(symbol)
    {
      if !msg.msgType.MarketDataSnapshot? { return; }
      bids, asks := map[], map[];
      if symbol == "" && msg.symbol != "" { symbol := msg.symbol; }
      for i := 0 to |msg.entries|
        invariant Valid() && Contents() == ApplyEntries(EMPTY_BOOK, msg.entries[..i], true)
        invariant symbol == (if old(symbol) == "" then msg.symbol else old(symbol))
        invariant snapshotCount == old(snapshotCount) && updateCount == old(updateCount)
      {
        var e := msg.entries[i];
        var level := PriceLevel(e.price, e.quantity, 0);
        if e.entryType == 0 {
          bids := bids[e.price := level];
        } else if e.entryType == 1 {
          asks := asks[e.price := level];
        }
        assert msg.entries[..i + 1][..i] == msg.entries[..i];
      }
      assert msg.entries[..|msg.entries|] == msg.entries;
      EntriesMeaning(old(Contents()), msg.entries, true);
      lastUpdateMs := now;
      snapshotCount := snapshotCount + 1;
    }

    method ApplyUpdate(msg: FixMessage, now: nat)
      requires Valid()
      modifies this
      ensures Valid()
      ensures !msg.msgType.MarketDataIncremental? ==> unchanged(this)
      ensures msg.msgType.MarketDataIncremental? ==>
                && Contents() == ApplyEntries(old(Contents()), msg.entries, false)
                && BookLeftByEntries(old(Contents()), msg.entries, false, Contents())
                && lastUpdateMs == now && updateCount == old(updateCount) + 1
                && snapshotCount == old(snapshotCount) && symbol == old(symbol)
    {
      if !msg.msgType.MarketDataIncremental? { return; }
      for i := 0 to |msg.entries|
        invariant Valid() && Contents() == ApplyEntries(old(Contents()), msg.entries[..i], false)
        invariant snapshotCount == old(snapshotCount) && updateCount == old(updateCount)
        invariant symbol == old(symbol)
      {
        ApplyEntry(msg.entries[i]);
        assert msg.entries[..i + 1][..i] == msg.entries[..i];
      }
      assert msg.entries[..|msg.entries|] == msg.entries;
      EntriesMeaning(old(Contents()), msg.entries, false);
      lastUpdateMs := now;
      updateCount := updateCount + 1;
    }

    method ApplyEntry(e: MDEntry)
      requires Valid()
      modifies this`bids, this`asks
      ensures Valid() && Contents() == UpdateEntry(old(Contents()), e)
      ensures BookLeftByEntries(old(Contents()), [e], false, Contents())
    {
      EntriesMeaning(Contents(), [e], false);
      assert ApplyEntries(Contents(), [e][..0], false) == Contents();
      var isBid, isAsk := e.entryType == 0, e.entryType == 1;
      if !isBid && !isAsk { return; }
      if e.updateAction == 0 || e.updateAction == 1 {
        var level := PriceLevel(e.price, e.quantity, 0);
        if isBid { bids := bids[e.price := level]; } else { asks := asks[e.price := level]; }
      } else if e.updateAction == 2 {
        if isBid { bids := bids - {e.price}; } else { asks := asks - {e.price}; }
      }
    }

    static method CopyFalling(m: Levels) returns (levels: seq<PriceLevel>)
      requires Keyed(m)
      ensures StrictlyFalling(levels) && Lists(levels, m)
    {
      levels := [];
      var rest := m;
      while rest != map[]
        invariant CopiedFalling(m, levels, rest)
        decreases |rest|
      {
        var p := Highest(rest.Keys);
        CopyFallingStep(m, levels, rest, p);
        levels := levels + [rest[p]];
        rest := rest - {p};
      }
    }

    static method CopyRising(m: Levels) returns (levels: seq<PriceLevel>)
      requires Keyed(m)
      ensures StrictlyRising(levels) && Lists(levels, m)
    {
      levels := [];
      var rest := m;
      while rest != map[]
        invariant CopiedRising(m, levels, rest)
        decreases |rest|
      {
        var p := Lowest(rest.Keys);
        CopyRisingStep(m, levels, rest, p);
        levels := levels + [rest[p]];
        rest := rest - {p};
      }
    }

    /** Both sides copied out in map order. */
    method GetSnapshot() returns (snap: Snapshot)
      requires Valid()
      ensures snap == Snapshot(symbol, exchange, lastUpdateMs, true, snap.bids, snap.asks)
      ensures StrictlyFalling(snap.bids) && Lists(snap.bids, bids)
      ensures StrictlyRising(snap.asks) && Lists(snap.asks, asks)
      ensures NotCrossed(Contents()) && snap.bids != [] && snap.asks != [] ==>
                snap.bids[0].price < snap.asks[0].price
    {
      var falling := CopyFalling(bids);
      var rising := CopyRising(asks);
      snap := Snapshot(symbol, exchange, lastUpdateMs, true, falling, rising);
    }
  }
}
