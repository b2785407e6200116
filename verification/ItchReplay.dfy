/** L2 reconstruction from ITCH order events (tests/replay/itch_replay.cpp): the order map, the
    incrementally kept price-level index, and the L2 events a driven OrderBook receives.

    The nested level maps are one map keyed by stock, side and price.  Shares are integers; a
    price is the raw field over 10000, exactly.  `at` on a missing level throws, which the
    model reports as the outcome Threw. */
module ItchReplays {
  import opened Bytes
  import opened ItchCodec
  import opened Optional
  import opened OrderBooks

  type Stock = seq<byte>

  datatype Order = Order(ref: nat, side: byte, remaining: nat, price: Price, stock: Stock)

  datatype LevelKey = LevelKey(stock: Stock, side: Side, price: Price)

  datatype LevelInfo = LevelInfo(qty: int, count: int)

  datatype L2Event = L2Event(isSet: bool, side: Side, price: Price, quantity: real, orderCount: int, stock: Stock, ts: nat)

  datatype Counts = Counts(add: nat, execute: nat, cancel: nat, delete: nat, replace: nat)

  datatype Replay = Replay(
    filter: Stock,
    orders: map<nat, Order>,
    levels: map<LevelKey, LevelInfo>,
    events: seq<L2Event>,
    counts: Counts)

  datatype Outcome = Done(s: Replay) | Threw

  function Fresh(filter: Stock): Replay {
    Replay(filter, map[], map[], [], Counts(0, 0, 0, 0, 0))
  }

  function SideOfByte(b: byte): Side { if b == 'B' as int then Bid else Ask }

  function KeyOf(o: Order): LevelKey { LevelKey(o.stock, SideOfByte(o.side), o.price) }

  function PriceOf(raw: nat): Price { raw as real / 10000.0 }

  function SetEvent(o: Order, info: LevelInfo, ts: nat): L2Event {
    L2Event(true, SideOfByte(o.side), o.price, info.qty as real, info.count, o.stock, ts)
  }

  function DeleteEvent(o: Order, ts: nat): L2Event {
    L2Event(false, SideOfByte(o.side), o.price, 0.0, 0, o.stock, ts)
  }

  predicate Skips(filter: Stock, o: Order) { filter != [] && o.stock != filter }

  function InfoAt(levels: map<LevelKey, LevelInfo>, k: LevelKey): LevelInfo {
    if k in levels then levels[k] else LevelInfo(0, 0)
  }

  // ----- the handlers -----

  function AddOrderTo(s: Replay, o: Order, ts: nat): Replay {
    if Skips(s.filter, o) then s
    else
      var before := InfoAt(s.levels, KeyOf(o));
      var info := LevelInfo(before.qty + o.remaining, before.count + 1);
      s.(orders := s.orders[o.ref := o],
         levels := s.levels[KeyOf(o) := info],
         events := s.events + [SetEvent(o, info, ts)],
         counts := s.counts.(add := s.counts.add + 1))
  }

  function RemoveOrder(s: Replay, ref: nat, ts: nat): Outcome {
    if ref !in s.orders then Done(s)
    else
      var o := s.orders[ref];
      var k := KeyOf(o);
      if Skips(s.filter, o) then Done(s.(orders := s.orders - {ref}))
      else if k !in s.levels then Threw
      else
        var info := LevelInfo(s.levels[k].qty - o.remaining, s.levels[k].count - 1);
        if info.count <= 0 || info.qty <= 0 then
          Done(s.(orders := s.orders - {ref}, levels := s.levels - {k}, events := s.events + [DeleteEvent(o, ts)]))
        else
          Done(s.(orders := s.orders - {ref}, levels := s.levels[k := info], events := s.events + [SetEvent(o, info, ts)]))
  }

  function ReduceOrder(s: Replay, ref: nat, cut: nat, ts: nat): Outcome {
    if ref !in s.orders then Done(s)
    else
      var o := s.orders[ref];
      if Skips(s.filter, o) then Done(s)
      else if cut >= o.remaining then RemoveOrder(s, ref, ts)
      else
        var before := InfoAt(s.levels, KeyOf(o));
        var info := before.(qty := before.qty - cut);
        Done(s.(orders := s.orders[ref := o.(remaining := o.remaining - cut)],
                levels := s.levels[KeyOf(o) := info],
                events := s.events + [SetEvent(o, info, ts)]))
  }

  function Counted(r: Outcome, counts: Counts): Outcome {
    match r
    case Threw => Threw
    case Done(s) => Done(s.(counts := counts))
  }

  function Handle(s: Replay, m: Message): Outcome {
    match m
    case AddOrder(ts, ref, side, shares, stock, price) =>
      Done(AddOrderTo(s, Order(ref, side, shares, PriceOf(price), stock), ts))
    case OrderExecuted(ts, ref, shares) =>
      Counted(ReduceOrder(s, ref, shares, ts), s.counts.(execute := s.counts.execute + 1))
    case OrderCancel(ts, ref, shares) =>
      Counted(ReduceOrder(s, ref, shares, ts), s.counts.(cancel := s.counts.cancel + 1))
    case OrderDelete(ts, ref) =>
      Counted(RemoveOrder(s, ref, ts), s.counts.(delete := s.counts.delete + 1))
    case OrderReplace(ts, oldRef, _, _, _) =>
      Counted(RemoveOrder(s, oldRef, ts), s.counts.(replace := s.counts.replace + 1))
  }

  function Process(s: Replay, buf: seq<byte>): Outcome {
    match Decode(buf)
    case Body(m) => Handle(s, m)
    case _ => Done(s)
  }

  function Run(s: Replay, msgs: seq<seq<byte>>): Outcome
    decreases |msgs|
  {
    if msgs == [] then Done(s)
    else
      match Process(s, msgs[0])
      case Threw => Threw
      case Done(r) => Run(r, msgs[1..])
  }

  // ----- the index against the live orders -----

  /** The remaining shares of the orders resting at a level, by reference. */
  function Resting(orders: map<nat, Order>, k: LevelKey): map<nat, nat> {
    map r | r in orders && KeyOf(orders[r]) == k :: orders[r].remaining
  }

  ghost function Sum(m: map<nat, nat>): nat
    decreases |m|
  {
    if m == map[] then 0
    else
      var r :| r in m;
      m[r] + Sum(m - {r})
  }

  /** The sum does not depend on the order of summation. */
  lemma {:induction false} SumWithout(m: map<nat, nat>, r: nat)
    requires r in m
    ensures Sum(m) == m[r] + Sum(m - {r})
    decreases |m|
  {
    var q :| q in m && Sum(m) == m[q] + Sum(m - {q});
    if q != r {
      assert |m - {q}| < |m| by { assert m.Keys == (m - {q}).Keys + {q}; }
      SumWithout(m - {q}, r);
      assert |m - {r}| < |m| by { assert m.Keys == (m - {r}).Keys + {r}; }
      SumWithout(m - {r}, q);
      assert m - {q} - {r} == m - {r} - {q};
    }
  }

  lemma SumUpdate(m: map<nat, nat>, r: nat, v: nat)
    ensures Sum(m[r := v]) == Sum(m - {r}) + v
  {
    SumWithout(m[r := v], r);
    assert m[r := v] - {r} == m - {r};
  }

  lemma {:induction false} SumPositive(m: map<nat, nat>)
    requires m != map[] && forall r :: r in m ==> m[r] > 0
    ensures Sum(m) > 0
  {
    assert m.Keys != {};
    var r :| r in m;
    SumWithout(m, r);
  }

  /** What the live orders say about a level: nothing, or its quantity and count. */
  ghost function Grouped(orders: map<nat, Order>, k: LevelKey): Option<LevelInfo> {
    Total(Resting(orders, k))
  }

  ghost function Total(resting: map<nat, nat>): Option<LevelInfo> {
    if resting == map[] then None else Some(LevelInfo(Sum(resting), |resting|))
  }

  function LevelAt(s: Replay, k: LevelKey): Option<LevelInfo> {
    if k in s.levels then Some(s.levels[k]) else None
  }

  /** The level exists iff some live order rests there, with the sum of the remaining shares
      and the number of those orders. */
  ghost predicate IndexAgrees(s: Replay) {
    forall k :: LevelAt(s, k) == Grouped(s.orders, k)
  }

  ghost predicate OrdersOk(s: Replay) {
    && (forall r :: r in s.orders ==> s.orders[r].remaining > 0 && s.orders[r].ref == r && !Skips(s.filter, s.orders[r]))
    && (forall e :: e in s.events && s.filter != [] ==> e.stock == s.filter)
  }

  ghost predicate Inv(s: Replay) {
    IndexAgrees(s) && OrdersOk(s)
  }

  // How the grouping moves with the order map.

  lemma GroupedElsewhere(orders: map<nat, Order>, ref: nat, o: Order, k: LevelKey)
    requires ref in orders ==> KeyOf(orders[ref]) == KeyOf(o)
    requires k != KeyOf(o)
    ensures Grouped(orders[ref := o], k) == Grouped(orders, k)
  {
    assert Resting(orders[ref := o], k) == Resting(orders, k);
  }

  lemma TotalInsert(m: map<nat, nat>, r: nat, v: nat)
    requires r !in m
    ensures Total(m[r := v]) ==
              Some(if Total(m).None? then LevelInfo(v, 1) else LevelInfo(Total(m).value.qty + v, Total(m).value.count + 1))
  {
    SumUpdate(m, r, v);
    assert m - {r} == m && r in m[r := v];
    assert |m[r := v]| == |m| + 1;
  }

  lemma TotalChange(m: map<nat, nat>, r: nat, v: nat)
    requires r in m
    ensures Total(m).Some? && Total(m[r := v]) == Some(Total(m).value.(qty := Total(m).value.qty - m[r] + v))
  {
    SumUpdate(m, r, v);
    SumWithout(m, r);
    assert r in m[r := v] && m[r := v].Keys == m.Keys;
    assert |m[r := v]| == |m[r := v].Keys| && |m| == |m.Keys|;
  }

  lemma TotalRemove(m: map<nat, nat>, r: nat)
    requires r in m
    ensures Total(m).Some?
    ensures Total(m - {r}).None? <==> Total(m).value.count <= 1
    ensures Total(m - {r}).Some? ==> Total(m - {r}).value == LevelInfo(Total(m).value.qty - m[r], Total(m).value.count - 1)
  {
    SumWithout(m, r);
    assert m.Keys == (m - {r}).Keys + {r};
    assert |m| == |m.Keys| && |m - {r}| == |(m - {r}).Keys|;
  }

  lemma GroupedInsert(orders: map<nat, Order>, ref: nat, o: Order)
    requires ref !in orders
    ensures var was := Grouped(orders, KeyOf(o));
            Grouped(orders[ref := o], KeyOf(o)) ==
              Some(if was.None? then LevelInfo(o.remaining, 1) else LevelInfo(was.value.qty + o.remaining, was.value.count + 1))
  {
    assert Resting(orders[ref := o], KeyOf(o)) == Resting(orders, KeyOf(o))[ref := o.remaining];
    TotalInsert(Resting(orders, KeyOf(o)), ref, o.remaining);
  }

  lemma GroupedChange(orders: map<nat, Order>, ref: nat, o: Order)
    requires ref in orders && KeyOf(orders[ref]) == KeyOf(o)
    ensures var was := Grouped(orders, KeyOf(o));
            && was.Some?
            && Grouped(orders[ref := o], KeyOf(o)) == Some(was.value.(qty := was.value.qty - orders[ref].remaining + o.remaining))
  {
    assert Resting(orders[ref := o], KeyOf(o)) == Resting(orders, KeyOf(o))[ref := o.remaining];
    TotalChange(Resting(orders, KeyOf(o)), ref, o.remaining);
  }

  lemma GroupedRemove(orders: map<nat, Order>, ref: nat, k: LevelKey)
    requires ref in orders
    ensures k != KeyOf(orders[ref]) ==> Grouped(orders - {ref}, k) == Grouped(orders, k)
    ensures k == KeyOf(orders[ref]) ==>
              var was, now := Grouped(orders, k), Grouped(orders - {ref}, k);
              && was.Some?
              && (now.None? <==> was.value.count <= 1)
              && (now.Some? ==> now.value == LevelInfo(was.value.qty - orders[ref].remaining, was.value.count - 1))
  {
    assert Resting(orders - {ref}, k) == Resting(orders, k) - {ref};
    if k == KeyOf(orders[ref]) {
      TotalRemove(Resting(orders, k), ref);
    } else {
      assert Resting(orders, k) - {ref} == Resting(orders, k);
    }
  }

  lemma GroupedPositive(orders: map<nat, Order>, k: LevelKey)
    requires forall r :: r in orders ==> orders[r].remaining > 0
    ensures Grouped(orders, k).Some? ==> Grouped(orders, k).value.qty > 0 && Grouped(orders, k).value.count > 0
  {
    var resting := Resting(orders, k);
    if resting != map[] {
      SumPositive(resting);
      assert resting.Keys != {};
    }
  }

  // ----- what one message does -----

  /** What the last event of r, if it has one more than s, says about its level. */
  ghost predicate EventTells(s: Replay, r: Replay) {
    || (r.events == s.events && forall k :: Grouped(r.orders, k) == Grouped(s.orders, k))
    || (|r.events| == |s.events| + 1 && s.events <= r.events &&
        var e := r.events[|s.events|];
        var key := LevelKey(e.stock, e.side, e.price);
        && (forall k :: k != key ==> Grouped(r.orders, k) == Grouped(s.orders, k))
        && (if e.isSet then Grouped(r.orders, key).Some? && AsLevel(key, Grouped(r.orders, key).value) == PriceLevel(e.price, e.quantity, e.orderCount)
            else Grouped(r.orders, key).None?))
  }

  /** A level as an order book holds it. */
  function AsLevel(k: LevelKey, info: LevelInfo): PriceLevel {
    PriceLevel(k.price, info.qty as real, info.count)
  }

  lemma SetTells(s: Replay, r: Replay, o: Order, info: LevelInfo, ts: nat)
    requires r.events == s.events + [SetEvent(o, info, ts)] && Grouped(r.orders, KeyOf(o)) == Some(info)
    requires forall k :: k != KeyOf(o) ==> Grouped(r.orders, k) == Grouped(s.orders, k)
    ensures EventTells(s, r)
  {
  }

  lemma DeleteTells(s: Replay, r: Replay, o: Order, ts: nat)
    requires r.events == s.events + [DeleteEvent(o, ts)] && Grouped(r.orders, KeyOf(o)).None?
    requires forall k :: k != KeyOf(o) ==> Grouped(r.orders, k) == Grouped(s.orders, k)
    ensures EventTells(s, r)
  {
  }

  lemma AddKeeps(s: Replay, o: Order, ts: nat)
    requires Inv(s) && o.remaining > 0 && o.ref !in s.orders
    ensures Inv(AddOrderTo(s, o, ts)) && EventTells(s, AddOrderTo(s, o, ts))
  {
    var r, key := AddOrderTo(s, o, ts), KeyOf(o);
    if !Skips(s.filter, o) {
      assert LevelAt(s, key) == Grouped(s.orders, key);
      GroupedInsert(s.orders, o.ref, o);
      forall k | k != key ensures Grouped(r.orders, k) == Grouped(s.orders, k) {
        GroupedElsewhere(s.orders, o.ref, o, k);
      }
      OneLevelMoved(s, r, key);
      SetTells(s, r, o, r.levels[key], ts);
    }
  }

  lemma RemoveKeeps(s: Replay, ref: nat, ts: nat)
    requires Inv(s)
    ensures RemoveOrder(s, ref, ts).Done?
    ensures Inv(RemoveOrder(s, ref, ts).s) && EventTells(s, RemoveOrder(s, ref, ts).s)
  {
    if ref in s.orders {
      var o := s.orders[ref];
      var key := KeyOf(o);
      assert LevelAt(s, key) == Grouped(s.orders, key);
      GroupedRemove(s.orders, ref, key);
      GroupedPositive(s.orders - {ref}, key);
      var r := RemoveOrder(s, ref, ts).s;
      forall k | k != key ensures Grouped(r.orders, k) == Grouped(s.orders, k) {
        GroupedRemove(s.orders, ref, k);
      }
      OneLevelMoved(s, r, key);
      if key in r.levels { SetTells(s, r, o, r.levels[key], ts); } else { DeleteTells(s, r, o, ts); }
    }
  }

  lemma ReduceKeeps(s: Replay, ref: nat, cut: nat, ts: nat)
    requires Inv(s)
    ensures ReduceOrder(s, ref, cut, ts).Done?
    ensures Inv(ReduceOrder(s, ref, cut, ts).s) && EventTells(s, ReduceOrder(s, ref, cut, ts).s)
  {
    if ref in s.orders {
      var o := s.orders[ref];
      if cut >= o.remaining {
        RemoveKeeps(s, ref, ts);
      } else {
        PartialReduceKeeps(s, ref, cut, ts);
      }
    }
  }

  lemma PartialReduceMoves(s: Replay, ref: nat, cut: nat, ts: nat)
    requires IndexAgrees(s) && OrdersOk(s) && ref in s.orders && cut < s.orders[ref].remaining
    ensures var r, key := ReduceOrder(s, ref, cut, ts), KeyOf(s.orders[ref]);
            && r.Done? && key in r.s.levels && Grouped(r.s.orders, key) == Some(r.s.levels[key])
            && r.s.events == s.events + [SetEvent(s.orders[ref], r.s.levels[key], ts)]
            && r.s.levels - {key} == s.levels - {key}
    ensures forall k :: k != KeyOf(s.orders[ref]) ==>
              Grouped(ReduceOrder(s, ref, cut, ts).s.orders, k) == Grouped(s.orders, k)
  {
    var o := s.orders[ref];
    var key, less := KeyOf(o), o.(remaining := o.remaining - cut);
    assert LevelAt(s, key) == Grouped(s.orders, key);
    GroupedChange(s.orders, ref, less);
    forall k | k != key ensures Grouped(s.orders[ref := less], k) == Grouped(s.orders, k) {
      GroupedElsewhere(s.orders, ref, less, k);
    }
  }

  lemma PartialReduceKeeps(s: Replay, ref: nat, cut: nat, ts: nat)
    requires Inv(s) && ref in s.orders && cut < s.orders[ref].remaining
    ensures var r := ReduceOrder(s, ref, cut, ts); r.Done? && Inv(r.s) && EventTells(s, r.s)
  {
    PartialReduceMoves(s, ref, cut, ts);
    var r, key := ReduceOrder(s, ref, cut, ts).s, KeyOf(s.orders[ref]);
    OneLevelMoved(s, r, key);
    SetTells(s, r, s.orders[ref], r.levels[key], ts);
  }

  /** If one level agrees with its orders and nothing else moved, the whole index agrees. */
  lemma OneLevelMoved(s: Replay, r: Replay, key: LevelKey)
    requires IndexAgrees(s) && LevelAt(r, key) == Grouped(r.orders, key)
    requires forall k :: k != key ==> Grouped(r.orders, k) == Grouped(s.orders, k)
    requires r.levels - {key} == s.levels - {key}
    ensures IndexAgrees(r)
  {
    forall k | k != key ensures LevelAt(r, k) == LevelAt(s, k) {
      assert k in r.levels <==> k in r.levels - {key};
      assert k in s.levels <==> k in s.levels - {key};
      if k in r.levels { assert (r.levels - {key})[k] == (s.levels - {key})[k]; }
    }
  }

  // ----- the feed's side of the contract -----

  /** What the code relies on: an added order has shares and a reference that is not live. */
  predicate MessageOk(s: Replay, m: Message) {
    m.AddOrder? ==>
      Skips(s.filter, Order(m.ref, m.side, m.shares, PriceOf(m.price), m.stock)) || (m.shares > 0 && m.ref !in s.orders)
  }

  predicate FeedOk(s: Replay, buf: seq<byte>) {
    match Decode(buf)
    case Body(m) => MessageOk(s, m)
    case _ => true
  }

  predicate RunOk(s: Replay, msgs: seq<seq<byte>>)
    decreases |msgs|
  {
    msgs == [] || (FeedOk(s, msgs[0]) && (Process(s, msgs[0]).Done? ==> RunOk(Process(s, msgs[0]).s, msgs[1..])))
  }

  lemma HandleKeeps(s: Replay, m: Message)
    requires Inv(s) && MessageOk(s, m)
    ensures Handle(s, m).Done? && Inv(Handle(s, m).s) && EventTells(s, Handle(s, m).s)
    ensures Handle(s, m).s.filter == s.filter
  {
    match m
    case AddOrder(ts, ref, side, shares, stock, price) =>
      var o := Order(ref, side, shares, PriceOf(price), stock);
      if !Skips(s.filter, o) { AddKeeps(s, o, ts); }
    case OrderExecuted(ts, ref, shares) => ReduceKeeps(s, ref, shares, ts);
    case OrderCancel(ts, ref, shares) => ReduceKeeps(s, ref, shares, ts);
    case OrderDelete(ts, ref) => RemoveKeeps(s, ref, ts);
    case OrderReplace(ts, oldRef, _, _, _) => RemoveKeeps(s, oldRef, ts);
  }

  /** Exactly when an Add keeps the index right: its reference must not be live.  Re-adding a
      live reference counts the order twice, or strands it at its old level. */
  lemma AddKeepsIndexIff(s: Replay, o: Order, ts: nat)
    requires Inv(s) && !Skips(s.filter, o)
    ensures IndexAgrees(AddOrderTo(s, o, ts)) <==> o.ref !in s.orders
  {
    if o.ref in s.orders {
      ReAddBreaksIndex(s, o, ts);
    } else {
      NewAddKeepsIndex(s, o, ts);
    }
  }

  lemma NewAddKeepsIndex(s: Replay, o: Order, ts: nat)
    requires Inv(s) && !Skips(s.filter, o) && o.ref !in s.orders
    ensures IndexAgrees(AddOrderTo(s, o, ts))
  {
    var r, key := AddOrderTo(s, o, ts), KeyOf(o);
    assert LevelAt(s, key) == Grouped(s.orders, key);
    GroupedInsert(s.orders, o.ref, o);
    forall k | k != key ensures Grouped(r.orders, k) == Grouped(s.orders, k) {
      GroupedElsewhere(s.orders, o.ref, o, k);
    }
    OneLevelMoved(s, r, key);
  }

  /** At its own level a re-added order is counted twice. */
  lemma ReAddCountsTwice(s: Replay, o: Order, ts: nat)
    requires IndexAgrees(s) && !Skips(s.filter, o) && o.ref in s.orders && KeyOf(s.orders[o.ref]) == KeyOf(o)
    ensures var r := AddOrderTo(s, o, ts); LevelAt(r, KeyOf(o)) != Grouped(r.orders, KeyOf(o))
  {
    assert LevelAt(s, KeyOf(o)) == Grouped(s.orders, KeyOf(o));
    GroupedChange(s.orders, o.ref, o);
  }

  /** Elsewhere it is stranded at the level it left. */
  lemma ReAddStrands(s: Replay, o: Order, ts: nat)
    requires IndexAgrees(s) && !Skips(s.filter, o) && o.ref in s.orders && KeyOf(s.orders[o.ref]) != KeyOf(o)
    ensures var r := AddOrderTo(s, o, ts); LevelAt(r, KeyOf(s.orders[o.ref])) != Grouped(r.orders, KeyOf(s.orders[o.ref]))
  {
    var oldKey := KeyOf(s.orders[o.ref]);
    assert LevelAt(s, oldKey) == Grouped(s.orders, oldKey);
    GroupedRemove(s.orders, o.ref, oldKey);
    assert Resting(s.orders[o.ref := o], oldKey) == Resting(s.orders - {o.ref}, oldKey);
  }

  lemma ReAddBreaksIndex(s: Replay, o: Order, ts: nat)
    requires Inv(s) && !Skips(s.filter, o) && o.ref in s.orders
    ensures !IndexAgrees(AddOrderTo(s, o, ts))
  {
    if KeyOf(s.orders[o.ref]) == KeyOf(o) {
      ReAddCountsTwice(s, o, ts);
    } else {
      ReAddStrands(s, o, ts);
    }
  }

  // ----- whole runs -----

  /** From a fresh replay, any messages of a well-behaved feed are handled without a lookup
      ever failing, and the index agrees with the live orders after each of them. */
  lemma {:induction false} RunKeeps(s: Replay, msgs: seq<seq<byte>>)
    requires Inv(s) && RunOk(s, msgs)
    ensures Run(s, msgs).Done? && Inv(Run(s, msgs).s) && Run(s, msgs).s.filter == s.filter
    decreases |msgs|
  {
    if msgs != [] {
      ProcessKeeps(s, msgs[0]);
      RunKeeps(Process(s, msgs[0]).s, msgs[1..]);
    }
  }

  lemma ProcessKeeps(s: Replay, buf: seq<byte>)
    requires Inv(s) && FeedOk(s, buf)
    ensures Process(s, buf).Done? && Inv(Process(s, buf).s) && EventTells(s, Process(s, buf).s)
    ensures Process(s, buf).s.filter == s.filter
  {
    match Decode(buf)
    case Body(m) => HandleKeeps(s, m);
    case _ =>
  }

  lemma FreshInv(filter: Stock)
    ensures Inv(Fresh(filter))
  {
    forall k ensures LevelAt(Fresh(filter), k) == Grouped(map[], k) {
      assert Resting(map[], k) == map[];
    }
  }

  /** Reconstruction: at every point of every well-behaved run, a level exists iff some live
      order rests there, and then holds the sum of their remaining shares and their number. */
  lemma ReconstructionIsGrouping(filter: Stock, msgs: seq<seq<byte>>, k: LevelKey)
    requires RunOk(Fresh(filter), msgs)
    ensures Run(Fresh(filter), msgs).Done?
    ensures var s := Run(Fresh(filter), msgs).s;
            && (k in s.levels <==> exists r :: r in s.orders && KeyOf(s.orders[r]) == k)
            && (k in s.levels ==> s.levels[k] == LevelInfo(Sum(Resting(s.orders, k)), |Resting(s.orders, k)|))
  {
    FreshInv(filter);
    RunKeeps(Fresh(filter), msgs);
    var s := Run(Fresh(filter), msgs).s;
    assert LevelAt(s, k) == Grouped(s.orders, k);
    if r :| r in s.orders && KeyOf(s.orders[r]) == k {
      assert r in Resting(s.orders, k);
    } else {
      assert Resting(s.orders, k) == map[];
    }
  }

  // ----- driving an order book -----

  /** The callback of the replay tests: Set sets the level, Delete deletes it. */
  function ApplyEvent(b: Book, e: L2Event): Book {
    if e.isSet then SetLevel(b, e.side, PriceLevel(e.price, e.quantity, e.orderCount))
    else DeleteLevel(b, e.side, e.price)
  }

  function Driven(b: Book, events: seq<L2Event>): Book
    decreases |events|
  {
    if events == [] then b else ApplyEvent(Driven(b, events[..|events| - 1]), events[|events| - 1])
  }

  ghost predicate ShowsInfo(b: Book, k: LevelKey, info: Option<LevelInfo>) {
    match info
    case None => k.price !in SideOf(b, k.side)
    case Some(i) => k.price in SideOf(b, k.side) && SideOf(b, k.side)[k.price] == AsLevel(k, i)
  }

  /** The book's level at k is what the live orders resting there add up to. */
  ghost predicate Shows(b: Book, orders: map<nat, Order>, k: LevelKey) {
    ShowsInfo(b, k, Grouped(orders, k))
  }

  lemma EventElsewhere(b: Book, e: L2Event, k: LevelKey, info: Option<LevelInfo>)
    requires ShowsInfo(b, k, info) && (k.side != e.side || k.price != e.price)
    ensures ShowsInfo(ApplyEvent(b, e), k, info)
  {
  }

  lemma EventHere(b: Book, e: L2Event, k: LevelKey, info: Option<LevelInfo>)
    requires k.side == e.side && k.price == e.price
    requires if e.isSet then info.Some? && AsLevel(k, info.value) == PriceLevel(e.price, e.quantity, e.orderCount) else info.None?
    ensures ShowsInfo(ApplyEvent(b, e), k, info)
  {
  }

  /** The book holds, price by price, the live orders of one stock grouped. */
  ghost predicate BookGroups(b: Book, orders: map<nat, Order>, stock: Stock) {
    forall k: LevelKey :: k.stock == stock ==> Shows(b, orders, k)
  }

  lemma EventKeepsBook(s: Replay, r: Replay, b: Book, stock: Stock)
    requires EventTells(s, r) && BookGroups(b, s.orders, stock)
    requires |r.events| > |s.events| ==> r.events[|s.events|].stock == stock
    ensures |r.events| == |s.events| ==> BookGroups(b, r.orders, stock)
    ensures |r.events| > |s.events| ==> BookGroups(ApplyEvent(b, r.events[|s.events|]), r.orders, stock)
  {
    forall k: LevelKey | k.stock == stock
      ensures |r.events| == |s.events| ==> Shows(b, r.orders, k)
      ensures |r.events| > |s.events| ==> Shows(ApplyEvent(b, r.events[|s.events|]), r.orders, k)
    {
      EventKeepsLevel(s, r, b, k);
    }
  }

  lemma EventKeepsLevel(s: Replay, r: Replay, b: Book, k: LevelKey)
    requires EventTells(s, r) && Shows(b, s.orders, k)
    requires |r.events| > |s.events| ==> r.events[|s.events|].stock == k.stock
    ensures |r.events| == |s.events| ==> Shows(b, r.orders, k)
    ensures |r.events| > |s.events| ==> Shows(ApplyEvent(b, r.events[|s.events|]), r.orders, k)
  {
    if |r.events| > |s.events| {
      var e := r.events[|s.events|];
      if k == LevelKey(e.stock, e.side, e.price) {
        EventHere(b, e, k, Grouped(r.orders, k));
      } else {
        EventElsewhere(b, e, k, Grouped(r.orders, k));
      }
    }
  }

  lemma {:induction false} DrivenAppend(b: Book, events: seq<L2Event>, e: L2Event)
    ensures Driven(b, events + [e]) == ApplyEvent(Driven(b, events), e)
  {
    assert (events + [e])[..|events|] == events;
  }

  lemma EventDrives(s: Replay, r: Replay, stock: Stock)
    requires EventTells(s, r) && BookGroups(Driven(EMPTY_BOOK, s.events), s.orders, stock)
    requires |r.events| > |s.events| ==> r.events[|s.events|].stock == stock
    ensures BookGroups(Driven(EMPTY_BOOK, r.events), r.orders, stock)
  {
    var b := Driven(EMPTY_BOOK, s.events);
    EventKeepsBook(s, r, b, stock);
    if |r.events| > |s.events| {
      var e := r.events[|s.events|];
      assert r.events == s.events + [e];
      DrivenAppend(EMPTY_BOOK, s.events, e);
    }
  }

  lemma NewEventsAreFiltered(s: Replay, r: Replay)
    requires OrdersOk(r) && r.filter != []
    ensures |r.events| > |s.events| ==> r.events[|s.events|].stock == r.filter
  {
    assert |r.events| > |s.events| ==> r.events[|s.events|] in r.events;
  }

  /** One message keeps the driven book equal to the grouping. */
  lemma ProcessKeepsBook(s: Replay, buf: seq<byte>)
    requires Inv(s) && FeedOk(s, buf) && s.filter != []
    requires BookGroups(Driven(EMPTY_BOOK, s.events), s.orders, s.filter)
    ensures Process(s, buf).Done?
    ensures BookGroups(Driven(EMPTY_BOOK, Process(s, buf).s.events), Process(s, buf).s.orders, s.filter)
  {
    ProcessKeeps(s, buf);
    NewEventsAreFiltered(s, Process(s, buf).s);
    EventDrives(s, Process(s, buf).s, s.filter);
  }

  lemma {:induction false} RunKeepsBook(s: Replay, msgs: seq<seq<byte>>)
    requires Inv(s) && RunOk(s, msgs) && s.filter != []
    requires BookGroups(Driven(EMPTY_BOOK, s.events), s.orders, s.filter)
    ensures Run(s, msgs).Done?
    ensures BookGroups(Driven(EMPTY_BOOK, Run(s, msgs).s.events), Run(s, msgs).s.orders, s.filter)
    decreases |msgs|
  {
    if msgs != [] {
      ProcessKeeps(s, msgs[0]);
      ProcessKeepsBook(s, msgs[0]);
      RunKeepsBook(Process(s, msgs[0]).s, msgs[1..]);
    }
  }

  /** An initially empty order book fed every emitted event equals, price by price with quantity
      and order count, the live orders of the filtered stock grouped, after any well-behaved run. */
  lemma DrivenBookIsGrouping(filter: Stock, msgs: seq<seq<byte>>, side: Side, p: Price)
    requires filter != [] && RunOk(Fresh(filter), msgs)
    ensures Run(Fresh(filter), msgs).Done?
    ensures var s, k := Run(Fresh(filter), msgs).s, LevelKey(filter, side, p);
            Lookup(SideOf(Driven(EMPTY_BOOK, s.events), side), p) ==
              if forall r :: r in s.orders ==> KeyOf(s.orders[r]) != k then None
              else Some(PriceLevel(p, Sum(Resting(s.orders, k)) as real, |Resting(s.orders, k)|))
  {
    FreshInv(filter);
    forall k: LevelKey ensures Shows(EMPTY_BOOK, map[], k) {
      assert Resting(map[], k) == map[];
    }
    RunKeeps(Fresh(filter), msgs);
    RunKeepsBook(Fresh(filter), msgs);
    var s, k := Run(Fresh(filter), msgs).s, LevelKey(filter, side, p);
    assert Shows(Driven(EMPTY_BOOK, s.events), s.orders, k);
    if r :| r in s.orders && KeyOf(s.orders[r]) == k {
      assert r in Resting(s.orders, k);
    } else {
      assert Resting(s.orders, k) == map[];
    }
  }

  // ----- why an order needs shares -----

  /** An order of no shares rests in the index, but removing its neighbour erases the level
      under it, and removing it afterwards looks up a level that is gone. */
  lemma EmptyOrderThrows(stock: Stock)
    ensures var s0 := Fresh([]);
            var s1 := AddOrderTo(s0, Order(1, 66, 0, 5.0, stock), 0);
            var s2 := AddOrderTo(s1, Order(2, 66, 100, 5.0, stock), 0);
            var r := RemoveOrder(s2, 2, 0);
            r.Done? && 1 in r.s.orders && r.s.levels == map[] && RemoveOrder(r.s, 1, 0).Threw?
  {
    var k := LevelKey(stock, Bid, 5.0);
    var s2 := AddOrderTo(AddOrderTo(Fresh([]), Order(1, 66, 0, 5.0, stock), 0), Order(2, 66, 100, 5.0, stock), 0);
    assert s2.levels == map[k := LevelInfo(100, 2)];
    assert s2.levels - {k} == map[];
  }

  // ----- the replay itself -----

  class ItchReplay {
    const filter: Stock
    var orders: map<nat, Order>
    var levels: map<LevelKey, LevelInfo>
    var events: seq<L2Event>
    var counts: Counts

    function State(): Replay
      reads this
    {
      Replay(filter, orders, levels, events, counts)
    }

    constructor (filter: Stock)
      ensures State() == Fresh(filter)
    {
      this.filter := filter;
      orders, levels, events, counts := map[], map[], [], Counts(0, 0, 0, 0, 0);
    }

    method HandleAddOrder(o: Order, ts: nat)
      modifies this
      ensures State() == AddOrderTo(old(State()), o, ts)
    {
      if filter != [] && o.stock != filter { return; }
      orders := orders[o.ref := o];
      var k := KeyOf(o);
      if k !in levels { levels := levels[k := LevelInfo(0, 0)]; }
      levels := levels[k := LevelInfo(levels[k].qty + o.remaining, levels[k].count + 1)];
      events := events + [SetEvent(o, levels[k], ts)];
      counts := counts.(add := counts.add + 1);
    }

    /** threw: a level lookup failed; the replay is left as it was. */
    method RemoveOrderAt(ref: nat, ts: nat) returns (threw: bool)
      modifies this
      ensures threw <==> RemoveOrder(old(State()), ref, ts).Threw?
      ensures State() == if threw then old(State()) else RemoveOrder(old(State()), ref, ts).s
    {
      threw := false;
      if ref !in orders { return; }
      var o := orders[ref];
      if filter != [] && o.stock != filter {
        orders := orders - {ref};
        return;
      }
      var k := KeyOf(o);
      var levelGone := false;
      if k in levels {
        levels := levels[k := LevelInfo(levels[k].qty - o.remaining, levels[k].count - 1)];
        if levels[k].count <= 0 || levels[k].qty <= 0 {
          levels := levels - {k};
          levelGone := true;
        }
      }
      if levelGone {
        events := events + [DeleteEvent(o, ts)];
      } else {
        if k !in levels { return true; }
        events := events + [SetEvent(o, levels[k], ts)];
      }
      orders := orders - {ref};
    }

    method ReduceOrderAt(ref: nat, shares: nat, ts: nat) returns (threw: bool)
      modifies this
      ensures threw <==> ReduceOrder(old(State()), ref, shares, ts).Threw?
      ensures State() == if threw then old(State()) else ReduceOrder(old(State()), ref, shares, ts).s
    {
      threw := false;
      if ref !in orders { return; }
      var o := orders[ref];
      if filter != [] && o.stock != filter { return; }
      if shares >= o.remaining {
        threw := RemoveOrderAt(ref, ts);
      } else {
        orders := orders[ref := o.(remaining := o.remaining - shares)];
        var k := KeyOf(o);
        if k !in levels { levels := levels[k := LevelInfo(0, 0)]; }
        levels := levels[k := levels[k].(qty := levels[k].qty - shares)];
        events := events + [SetEvent(o, levels[k], ts)];
      }
    }

    method HandleMessage(m: Message) returns (threw: bool)
      modifies this
      ensures threw <==> Handle(old(State()), m).Threw?
      ensures State() == if threw then old(State()) else Handle(old(State()), m).s
    {
      threw := false;
      match m {
        case AddOrder(ts, ref, side, shares, stock, price) =>
          HandleAddOrder(Order(ref, side, shares, PriceOf(price), stock), ts);
        case OrderExecuted(ts, ref, shares) =>
          threw := ReduceOrderAt(ref, shares, ts);
          if !threw { counts := counts.(execute := counts.execute + 1); }
        case OrderCancel(ts, ref, shares) =>
          threw := ReduceOrderAt(ref, shares, ts);
          if !threw { counts := counts.(cancel := counts.cancel + 1); }
        case OrderDelete(ts, ref) =>
          threw := RemoveOrderAt(ref, ts);
          if !threw { counts := counts.(delete := counts.delete + 1); }
        case OrderReplace(ts, oldRef, _, _, _) =>
          threw := RemoveOrderAt(oldRef, ts);
          if !threw { counts := counts.(replace := counts.replace + 1); }
      }
    }

    /** recognised: the type byte is one of the seven handled. */
    method ProcessMessage(buf: seq<byte>) returns (recognised: bool, threw: bool)
      modifies this
      ensures recognised <==> !Decode(buf).Unrecognised?
      ensures threw <==> Process(old(State()), buf).Threw?
      ensures State() == if threw then old(State()) else Process(old(State()), buf).s
    {
      threw := false;
      var d := Decode(buf);
      recognised := !d.Unrecognised?;
      if d.Body? { threw := HandleMessage(d.m); }
    }

    /** Replaying a well-behaved feed while driving an empty order book, as the replay tests
        do: no lookup fails, and the book ends as the grouping of the live orders. */
    method ReplayInto(book: OrderBook, msgs: seq<seq<byte>>, now: nat)
      requires State() == Fresh(filter) && filter != [] && RunOk(Fresh(filter), msgs)
      requires book.Valid() && book.Contents() == EMPTY_BOOK
      modifies this, book`bids, book`asks, book`lastUpdateMs
      ensures Run(Fresh(filter), msgs) == Done(State()) && Inv(State())
      ensures book.Valid() && BookGroups(book.Contents(), orders, filter)
    {
      FreshInv(filter);
      forall k: LevelKey ensures Shows(EMPTY_BOOK, map[], k) {
        assert Resting(map[], k) == map[];
      }
      for i := 0 to |msgs|
        invariant book.Valid() && Inv(State()) && RunOk(State(), msgs[i..])
        invariant Run(State(), msgs[i..]) == Run(Fresh(filter), msgs)
        invariant BookGroups(book.Contents(), orders, filter)
      {
        ghost var before, shown := State(), book.Contents();
        ProcessKeeps(before, msgs[i]);
        assert msgs[i..][0] == msgs[i] && msgs[i..][1..] == msgs[i + 1..];
        var seen := |events|;
        var _, _ := ProcessMessage(msgs[i]);
        EventKeepsBook(before, State(), shown, filter);
        if |events| > seen {
          var e := events[seen];
          assert e in events;
          if e.isSet {
            book.SetLevelAt(e.side, e.price, e.quantity, e.orderCount, now);
          } else {
            book.DeleteLevelAt(e.side, e.price, now);
          }
        }
      }
    }
  }
}
