/** Which orders are live after a replay, and with how many shares, told from the messages
    alone (tests/replay/itch_replay.cpp). */
module ItchOrders {
  import opened Bytes
  import opened ItchCodec
  import opened ItchReplays
  import opened OrderBooks

  /** The message adds order ref, of a stock the replay follows. */
  predicate Adds(filter: Stock, d: Decoded, ref: nat) {
    d.Body? && d.m.AddOrder? && d.m.ref == ref && (filter == [] || d.m.stock == filter)
  }

  /** The message deletes or replaces order ref. */
  predicate Ends(d: Decoded, ref: nat) {
    d.Body? && ((d.m.OrderDelete? && d.m.ref == ref) || (d.m.OrderReplace? && d.m.oldRef == ref))
  }

  /** The shares of order ref that the message executes or cancels. */
  function Cut(d: Decoded, ref: nat): nat {
    if d.Body? && (d.m.OrderExecuted? || d.m.OrderCancel?) && d.m.ref == ref then d.m.shares else 0
  }

  /** The shares of order ref executed or cancelled from message `since` on. */
  function Cuts(msgs: seq<seq<byte>>, since: nat, ref: nat): nat
    decreases |msgs|
  {
    if |msgs| <= since then 0
    else Cuts(msgs[..|msgs| - 1], since, ref) + Cut(Decode(msgs[|msgs| - 1]), ref)
  }

  /** Message i added order ref; since then it was not deleted or replaced, and fewer shares
      were executed or cancelled than it has. */
  ghost predicate Live(filter: Stock, msgs: seq<seq<byte>>, i: nat, ref: nat) {
    && i < |msgs| && Adds(filter, Decode(msgs[i]), ref)
    && (forall j :: i < j < |msgs| ==> !Ends(Decode(msgs[j]), ref))
    && Cuts(msgs, i + 1, ref) < Decode(msgs[i]).m.shares
  }

  /** The order that message i added, with the shares that are left of it. */
  ghost predicate IsWhatIsLeft(o: Order, msgs: seq<seq<byte>>, i: nat, ref: nat)
    requires i < |msgs| && Decode(msgs[i]).Body? && Decode(msgs[i]).m.AddOrder?
  {
    var m := Decode(msgs[i]).m;
    && o.ref == ref && o.stock == m.stock && o.side == m.side && o.price == m.price as real / 10000.0
    && o.remaining == m.shares - Cuts(msgs, i + 1, ref)
    && KeyOf(o) == LevelKey(m.stock, if m.side == 66 then Bid else Ask, m.price as real / 10000.0)
  }

  /** The order map says of ref what the messages say. */
  ghost predicate Told(filter: Stock, msgs: seq<seq<byte>>, orders: map<nat, Order>, ref: nat) {
    && (ref in orders ==> exists i: nat :: Live(filter, msgs, i, ref))
    && (forall i: nat :: Live(filter, msgs, i, ref) ==> ref in orders && IsWhatIsLeft(orders[ref], msgs, i, ref))
  }

  lemma {:induction false} CutsAppend(msgs: seq<seq<byte>>, buf: seq<byte>, since: nat, ref: nat)
    requires since <= |msgs|
    ensures Cuts(msgs + [buf], since, ref) == Cuts(msgs, since, ref) + Cut(Decode(buf), ref)
  {
    assert (msgs + [buf])[..|msgs|] == msgs;
  }

  /** An earlier add stays live exactly if the next message does not end it or use it up. */
  lemma LiveAppend(filter: Stock, msgs: seq<seq<byte>>, buf: seq<byte>, i: nat, ref: nat)
    requires i < |msgs|
    ensures Live(filter, msgs + [buf], i, ref) <==>
              && Live(filter, msgs, i, ref) && !Ends(Decode(buf), ref)
              && Cuts(msgs, i + 1, ref) + Cut(Decode(buf), ref) < Decode(msgs[i]).m.shares
  {
    var all := msgs + [buf];
    CutsAppend(msgs, buf, i + 1, ref);
    assert all[i] == msgs[i] && all[|msgs|] == buf;
    if Live(filter, all, i, ref) {
      forall j | i < j < |msgs| ensures !Ends(Decode(msgs[j]), ref) {
        assert !Ends(Decode(all[j]), ref);
      }
      assert !Ends(Decode(all[|msgs|]), ref);
    }
  }

  lemma LiveNew(filter: Stock, msgs: seq<seq<byte>>, buf: seq<byte>, ref: nat)
    ensures Live(filter, msgs + [buf], |msgs|, ref) <==>
              Adds(filter, Decode(buf), ref) && 0 < Decode(buf).m.shares
  {
    assert (msgs + [buf])[|msgs|] == buf;
  }

  lemma RemovedOrder(s: Replay, ref: nat, ts: nat, q: nat)
    requires Inv(s)
    ensures RemoveOrder(s, ref, ts).Done?
    ensures var now := RemoveOrder(s, ref, ts).s.orders;
            if q == ref then q !in now else (q in now <==> q in s.orders) && (q in now ==> now[q] == s.orders[q])
  {
    RemoveKeeps(s, ref, ts);
  }

  lemma ReducedOrder(s: Replay, ref: nat, cut: nat, ts: nat, q: nat)
    requires Inv(s)
    ensures ReduceOrder(s, ref, cut, ts).Done?
    ensures
      var now := ReduceOrder(s, ref, cut, ts).s.orders;
      if q in s.orders && (q == ref ==> cut < s.orders[q].remaining) then
        q in now && now[q] == s.orders[q].(remaining := s.orders[q].remaining - if q == ref then cut else 0)
      else q !in now
  {
    ReduceKeeps(s, ref, cut, ts);
    RemovedOrder(s, ref, ts, q);
    if ref in s.orders { assert !Skips(s.filter, s.orders[ref]); }
  }

  /** What a message leaves of order ref. */
  lemma HandledOrder(s: Replay, m: Message, ref: nat)
    requires Inv(s) && MessageOk(s, m)
    ensures Handle(s, m).Done?
    ensures
      var (d, now) := (Body(m), Handle(s, m).s.orders);
      if Adds(s.filter, d, ref) then
        ref !in s.orders && ref in now && m.shares > 0 &&
        now[ref] == Order(ref, m.side, m.shares, m.price as real / 10000.0, m.stock)
      else if ref in s.orders && !Ends(d, ref) && Cut(d, ref) < s.orders[ref].remaining then
        ref in now && now[ref] == s.orders[ref].(remaining := s.orders[ref].remaining - Cut(d, ref))
      else ref !in now
  {
    if ref in s.orders { assert s.orders[ref].remaining > 0; }
    match m
    case AddOrder(_, _, _, _, _, _) =>
    case OrderExecuted(ts, q, shares) => ReducedOrder(s, q, shares, ts, ref);
    case OrderCancel(ts, q, shares) => ReducedOrder(s, q, shares, ts, ref);
    case OrderDelete(ts, q) => RemovedOrder(s, q, ts, ref);
    case OrderReplace(ts, q, _, _, _) => RemovedOrder(s, q, ts, ref);
  }

  lemma MessageTold(s: Replay, msgs: seq<seq<byte>>, buf: seq<byte>, ref: nat)
    requires Inv(s) && FeedOk(s, buf) && Told(s.filter, msgs, s.orders, ref)
    ensures Process(s, buf).Done? && Told(s.filter, msgs + [buf], Process(s, buf).s.orders, ref)
  {
    ProcessKeeps(s, buf);
    var all, now, d := msgs + [buf], Process(s, buf).s.orders, Decode(buf);
    if d.Body? { HandledOrder(s, d.m, ref); }
    LiveNew(s.filter, msgs, buf, ref);
    if ref in now {
      if Adds(s.filter, d, ref) {
        assert Live(s.filter, all, |msgs|, ref);
      } else {
        var i: nat :| Live(s.filter, msgs, i, ref);
        LiveAppend(s.filter, msgs, buf, i, ref);
        assert Live(s.filter, all, i, ref);
      }
    }
    forall i: nat | Live(s.filter, all, i, ref) ensures ref in now && IsWhatIsLeft(now[ref], all, i, ref) {
      CutsAppend(msgs, buf, if i < |msgs| then i + 1 else |msgs|, ref);
      if i < |msgs| {
        LiveAppend(s.filter, msgs, buf, i, ref);
        assert all[i] == msgs[i];
      } else {
        assert all[i] == buf;
      }
    }
  }

  lemma {:induction false} RunTold(s: Replay, before: seq<seq<byte>>, msgs: seq<seq<byte>>, ref: nat)
    requires Inv(s) && RunOk(s, msgs) && Told(s.filter, before, s.orders, ref)
    ensures Run(s, msgs).Done? && Told(s.filter, before + msgs, Run(s, msgs).s.orders, ref)
    decreases |msgs|
  {
    if msgs == [] {
      assert before + msgs == before;
    } else {
      ProcessKeeps(s, msgs[0]);
      MessageTold(s, before, msgs[0], ref);
      RunTold(Process(s, msgs[0]).s, before + [msgs[0]], msgs[1..], ref);
      assert before + [msgs[0]] + msgs[1..] == before + msgs;
    }
  }

  /** After any well-behaved run an order is live exactly if some message added it, of a followed
      stock, none since has deleted or replaced it, and the shares executed or cancelled since
      are fewer than it had; it then has the side, price and stock of that message and the
      shares that are left. */
  lemma LiveOrdersAreTold(filter: Stock, msgs: seq<seq<byte>>, ref: nat)
    requires RunOk(Fresh(filter), msgs)
    ensures Run(Fresh(filter), msgs).Done?
    ensures ref in Run(Fresh(filter), msgs).s.orders <==> exists i: nat :: Live(filter, msgs, i, ref)
    ensures forall i: nat :: Live(filter, msgs, i, ref) ==>
              IsWhatIsLeft(Run(Fresh(filter), msgs).s.orders[ref], msgs, i, ref)
  {
    FreshInv(filter);
    RunTold(Fresh(filter), [], msgs, ref);
    assert [] + msgs == msgs;
  }

  // ----- counters -----

  datatype Kind = Added | Executed | Cancelled | Deleted | Replaced

  predicate IsOf(filter: Stock, d: Decoded, kind: Kind) {
    d.Body? &&
    match kind
    case Added => d.m.AddOrder? && (filter == [] || d.m.stock == filter)
    case Executed => d.m.OrderExecuted?
    case Cancelled => d.m.OrderCancel?
    case Deleted => d.m.OrderDelete?
    case Replaced => d.m.OrderReplace?
  }

  /** The positions of the messages of one kind. */
  function Those(filter: Stock, msgs: seq<seq<byte>>, kind: Kind): set<nat> {
    set j: nat | j < |msgs| && IsOf(filter, Decode(msgs[j]), kind)
  }

  function Tally(filter: Stock, msgs: seq<seq<byte>>): Counts {
    Counts(|Those(filter, msgs, Added)|, |Those(filter, msgs, Executed)|, |Those(filter, msgs, Cancelled)|,
           |Those(filter, msgs, Deleted)|, |Those(filter, msgs, Replaced)|)
  }

  lemma ThoseAppend(filter: Stock, msgs: seq<seq<byte>>, buf: seq<byte>, kind: Kind)
    ensures |Those(filter, msgs + [buf], kind)|
         == |Those(filter, msgs, kind)| + if IsOf(filter, Decode(buf), kind) then 1 else 0
  {
    var all := msgs + [buf];
    assert Those(filter, all, kind)
        == Those(filter, msgs, kind) + if IsOf(filter, Decode(buf), kind) then {|msgs|} else {};
  }

  /** The counters stand at the tally of the messages so far. */
  ghost predicate Tallied(s: Replay, filter: Stock, msgs: seq<seq<byte>>) {
    s.filter == filter && s.counts == Tally(filter, msgs)
  }

  lemma MessageTallied(s: Replay, filter: Stock, msgs: seq<seq<byte>>, buf: seq<byte>)
    requires Process(s, buf).Done? && Tallied(s, filter, msgs)
    ensures Tallied(Process(s, buf).s, filter, msgs + [buf])
  {
    ThoseAppend(filter, msgs, buf, Added);
    ThoseAppend(filter, msgs, buf, Executed);
    ThoseAppend(filter, msgs, buf, Cancelled);
    ThoseAppend(filter, msgs, buf, Deleted);
    ThoseAppend(filter, msgs, buf, Replaced);
  }

  lemma RunSplits(s: Replay, msgs: seq<seq<byte>>)
    requires msgs != [] && Run(s, msgs).Done?
    ensures Process(s, msgs[0]).Done? && Run(s, msgs) == Run(Process(s, msgs[0]).s, msgs[1..])
  {
  }

  lemma {:induction false} RunTallied(s: Replay, filter: Stock, before: seq<seq<byte>>, msgs: seq<seq<byte>>)
    requires Run(s, msgs).Done? && Tallied(s, filter, before)
    ensures Tallied(Run(s, msgs).s, filter, before + msgs)
    decreases |msgs|
  {
    if msgs == [] {
      assert before + msgs == before;
    } else {
      assert before + [msgs[0]] + msgs[1..] == before + msgs;
      RunSplits(s, msgs);
      var r := Process(s, msgs[0]).s;
      assert Tallied(r, filter, before + [msgs[0]]) by { MessageTallied(s, filter, before, msgs[0]); }
      RunTallied(r, filter, before + [msgs[0]], msgs[1..]);
    }
  }

  /** Whatever the messages, the five counters are the numbers of complete messages of their
      kind; adds are counted only of followed stocks. */
  lemma CountersAreTallies(filter: Stock, msgs: seq<seq<byte>>)
    requires Run(Fresh(filter), msgs).Done?
    ensures Run(Fresh(filter), msgs).s.counts == Tally(filter, msgs)
  {
    forall kind ensures Those(filter, [], kind) == {} {}
    RunTallied(Fresh(filter), filter, [], msgs);
    assert [] + msgs == msgs;
  }

  // ----- events -----

  /** A message is announced exactly if it adds an order of a followed stock or touches a live
      one, and the event carries the message's own timestamp. */
  lemma AnnouncedIff(s: Replay, buf: seq<byte>)
    requires Inv(s) && FeedOk(s, buf)
    ensures Process(s, buf).Done?
    ensures
      var (d, r) := (Decode(buf), Process(s, buf).s);
      && (|r.events| == |s.events| + 1 || r.events == s.events)
      && (|r.events| == |s.events| + 1 <==>
            d.Body? && ((d.m.AddOrder? && Adds(s.filter, d, d.m.ref))
                        || ((d.m.OrderExecuted? || d.m.OrderCancel?) && d.m.ref in s.orders)
                        || exists ref :: ref in s.orders && Ends(d, ref)))
      && (|r.events| == |s.events| + 1 ==> s.events <= r.events && r.events[|s.events|].ts == d.m.ts)
  {
    ProcessKeeps(s, buf);
    forall ref | ref in s.orders ensures !Skips(s.filter, s.orders[ref]) {}
    if Decode(buf).Body? {
      match Decode(buf).m
      case OrderDelete(_, ref) => assert Ends(Decode(buf), ref);
      case OrderReplace(_, ref, _, _, _) => assert Ends(Decode(buf), ref);
      case _ =>
    }
  }
}
