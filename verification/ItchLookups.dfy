/** When the level lookups of tests/replay/itch_replay.cpp succeed, and exactly when removing an
    order leaves the index right: the two premises of the reconstruction, taken apart. */
module ItchLookups {
  import opened Bytes
  import opened ItchCodec
  import opened ItchReplays
  import opened Optional
  import opened OrderBooks

  // ----- removing an order -----

  /** With the index right, a removal succeeds, and leaves the index right exactly if nothing is
      left at the level or what is left has shares. */
  lemma RemoveAgreesIff(s: Replay, ref: nat, ts: nat)
    requires IndexAgrees(s) && ref in s.orders && !Skips(s.filter, s.orders[ref])
    ensures var left := Resting(s.orders - {ref}, KeyOf(s.orders[ref]));
            && RemoveOrder(s, ref, ts).Done?
            && (IndexAgrees(RemoveOrder(s, ref, ts).s) <==> left == map[] || Sum(left) > 0)
  {
    var key := KeyOf(s.orders[ref]);
    var left := Resting(s.orders - {ref}, key);
    assert LevelAt(s, key) == Grouped(s.orders, key);
    GroupedRemove(s.orders, ref, key);
    var r := RemoveOrder(s, ref, ts).s;
    if left == map[] || Sum(left) > 0 {
      forall k | k != key ensures Grouped(r.orders, k) == Grouped(s.orders, k) {
        GroupedRemove(s.orders, ref, k);
      }
      OneLevelMoved(s, r, key);
    } else {
      assert LevelAt(r, key).None? && Grouped(r.orders, key).Some?;
    }
  }

  // ----- lookups -----

  function Amount(g: Option<LevelInfo>): LevelInfo { if g.Some? then g.value else LevelInfo(0, 0) }

  /** What rests at a level is in the index, and a level never holds less than what rests. */
  ghost predicate LevelCovers(s: Replay, k: LevelKey) {
    var g := Grouped(s.orders, k);
    && (g.Some? ==> k in s.levels)
    && (k in s.levels ==> s.levels[k].qty >= Amount(g).qty && s.levels[k].count >= Amount(g).count)
  }

  ghost predicate OrdersHaveShares(s: Replay) {
    forall r :: r in s.orders ==> s.orders[r].remaining > 0 && !Skips(s.filter, s.orders[r])
  }

  /** Weaker than agreement, and enough for every lookup: a re-added reference keeps it. */
  ghost predicate Sound(s: Replay) {
    OrdersHaveShares(s) && forall k :: LevelCovers(s, k)
  }

  lemma NothingNegative(orders: map<nat, Order>, k: LevelKey)
    ensures Amount(Grouped(orders, k)).qty >= 0 && Amount(Grouped(orders, k)).count >= 0
  {
  }

  lemma ForgettingCovers(s: Replay, ref: nat, k: LevelKey)
    requires LevelCovers(s, k) && ref in s.orders
    ensures LevelCovers(s.(orders := s.orders - {ref}), k)
  {
    GroupedRemove(s.orders, ref, k);
    NothingNegative(s.orders, k);
  }

  lemma NewAddCovers(s: Replay, o: Order, ts: nat, k: LevelKey)
    requires !Skips(s.filter, o) && o.ref !in s.orders && LevelCovers(s, k)
    ensures LevelCovers(AddOrderTo(s, o, ts), k)
  {
    if k == KeyOf(o) {
      GroupedInsert(s.orders, o.ref, o);
    } else {
      GroupedElsewhere(s.orders, o.ref, o, k);
    }
  }

  lemma AddCovers(s: Replay, o: Order, ts: nat, k: LevelKey)
    requires !Skips(s.filter, o) && LevelCovers(s, k)
    ensures LevelCovers(AddOrderTo(s, o, ts), k)
  {
    if o.ref in s.orders {
      var t := s.(orders := s.orders - {o.ref});
      ForgettingCovers(s, o.ref, k);
      NewAddCovers(t, o, ts, k);
      assert t.orders[o.ref := o] == s.orders[o.ref := o];
    } else {
      NewAddCovers(s, o, ts, k);
    }
  }

  /** An add with shares keeps every lookup good, be its reference live or not. */
  lemma AddKeepsSound(s: Replay, o: Order, ts: nat)
    requires Sound(s) && (o.remaining > 0 || Skips(s.filter, o))
    ensures Sound(AddOrderTo(s, o, ts))
  {
    if !Skips(s.filter, o) {
      forall k
        ensures LevelCovers(AddOrderTo(s, o, ts), k)
      {
        AddCovers(s, o, ts, k);
      }
    }
  }

  lemma RemoveCoversItsLevel(s: Replay, ref: nat, ts: nat)
    requires Sound(s) && ref in s.orders
    ensures RemoveOrder(s, ref, ts).Done? && LevelCovers(RemoveOrder(s, ref, ts).s, KeyOf(s.orders[ref]))
  {
    var key := KeyOf(s.orders[ref]);
    assert LevelCovers(s, key);
    GroupedRemove(s.orders, ref, key);
    GroupedPositive(s.orders - {ref}, key);
  }

  lemma RemoveCoversOthers(s: Replay, ref: nat, ts: nat, k: LevelKey)
    requires Sound(s) && ref in s.orders && k != KeyOf(s.orders[ref])
    ensures RemoveOrder(s, ref, ts).Done? ==> LevelCovers(RemoveOrder(s, ref, ts).s, k)
  {
    assert LevelCovers(s, k);
    GroupedRemove(s.orders, ref, k);
  }

  lemma RemoveKeepsSound(s: Replay, ref: nat, ts: nat)
    requires Sound(s)
    ensures RemoveOrder(s, ref, ts).Done? && Sound(RemoveOrder(s, ref, ts).s)
  {
    if ref in s.orders {
      RemoveCoversItsLevel(s, ref, ts);
      forall k | k != KeyOf(s.orders[ref])
        ensures LevelCovers(RemoveOrder(s, ref, ts).s, k)
      {
        RemoveCoversOthers(s, ref, ts, k);
      }
    }
  }

  lemma ReduceCovers(s: Replay, ref: nat, cut: nat, ts: nat, k: LevelKey)
    requires Sound(s) && ref in s.orders && cut < s.orders[ref].remaining
    ensures ReduceOrder(s, ref, cut, ts).Done? && LevelCovers(ReduceOrder(s, ref, cut, ts).s, k)
  {
    var o := s.orders[ref];
    var less := o.(remaining := o.remaining - cut);
    assert LevelCovers(s, k);
    if k == KeyOf(o) {
      GroupedChange(s.orders, ref, less);
    } else {
      GroupedElsewhere(s.orders, ref, less, k);
    }
  }

  lemma ReduceKeepsSound(s: Replay, ref: nat, cut: nat, ts: nat)
    requires Sound(s)
    ensures ReduceOrder(s, ref, cut, ts).Done? && Sound(ReduceOrder(s, ref, cut, ts).s)
  {
    if ref in s.orders && cut < s.orders[ref].remaining {
      forall k
        ensures ReduceOrder(s, ref, cut, ts).Done? && LevelCovers(ReduceOrder(s, ref, cut, ts).s, k)
      {
        ReduceCovers(s, ref, cut, ts, k);
      }
    } else {
      RemoveKeepsSound(s, ref, ts);
    }
  }

  /** An unfiltered Add has shares. */
  predicate HasShares(filter: Stock, m: Message) {
    m.AddOrder? ==> m.shares > 0 || Skips(filter, Order(m.ref, m.side, m.shares, PriceOf(m.price), m.stock))
  }

  lemma CountingKeepsSound(s: Replay, counts: Counts)
    requires Sound(s)
    ensures Sound(s.(counts := counts))
  {
    forall k
      ensures LevelCovers(s.(counts := counts), k)
    {
      assert LevelCovers(s, k);
    }
  }

  lemma HandleKeepsSound(s: Replay, m: Message)
    requires Sound(s) && HasShares(s.filter, m)
    ensures Handle(s, m).Done? && Sound(Handle(s, m).s) && Handle(s, m).s.filter == s.filter
  {
    var counts := if Handle(s, m).Done? then Handle(s, m).s.counts else s.counts;
    match m
    case AddOrder(ts, ref, side, shares, stock, price) => AddKeepsSound(s, Order(ref, side, shares, PriceOf(price), stock), ts);
    case OrderExecuted(ts, ref, shares) =>
      ReduceKeepsSound(s, ref, shares, ts);
      CountingKeepsSound(ReduceOrder(s, ref, shares, ts).s, counts);
    case OrderCancel(ts, ref, shares) =>
      ReduceKeepsSound(s, ref, shares, ts);
      CountingKeepsSound(ReduceOrder(s, ref, shares, ts).s, counts);
    case OrderDelete(ts, ref) =>
      RemoveKeepsSound(s, ref, ts);
      CountingKeepsSound(RemoveOrder(s, ref, ts).s, counts);
    case OrderReplace(ts, oldRef, _, _, _) =>
      RemoveKeepsSound(s, oldRef, ts);
      CountingKeepsSound(RemoveOrder(s, oldRef, ts).s, counts);
  }

  predicate FeedHasShares(filter: Stock, msgs: seq<seq<byte>>) {
    forall i :: 0 <= i < |msgs| && Decode(msgs[i]).Body? ==> HasShares(filter, Decode(msgs[i]).m)
  }

  lemma {:induction false} RunKeepsSound(s: Replay, msgs: seq<seq<byte>>)
    requires Sound(s) && FeedHasShares(s.filter, msgs)
    ensures Run(s, msgs).Done? && Sound(Run(s, msgs).s)
    decreases |msgs|
  {
    if msgs != [] {
      if Decode(msgs[0]).Body? { HandleKeepsSound(s, Decode(msgs[0]).m); }
      RunKeepsSound(Process(s, msgs[0]).s, msgs[1..]);
    }
  }

  lemma FreshIsSound(filter: Stock)
    ensures Sound(Fresh(filter))
  {
    forall k
      ensures LevelCovers(Fresh(filter), k)
    {
      assert Resting(map[], k) == map[];
    }
  }

  /** Every lookup of every run succeeds, re-added references included, as long as unfiltered
      adds have shares. */
  lemma LookupsSucceed(filter: Stock, msgs: seq<seq<byte>>)
    requires FeedHasShares(filter, msgs)
    ensures Run(Fresh(filter), msgs).Done?
  {
    FreshIsSound(filter);
    RunKeepsSound(Fresh(filter), msgs);
  }

  // ----- an order of no shares -----

  function HandleAll(s: Replay, ms: seq<Message>): Outcome
    decreases |ms|
  {
    if ms == [] then Done(s)
    else
      match Handle(s, ms[0])
      case Threw => Threw
      case Done(r) => HandleAll(r, ms[1..])
  }

  predicate AllHaveShares(filter: Stock, ms: seq<Message>) {
    forall m :: m in ms ==> HasShares(filter, m)
  }

  lemma {:induction false} SoundNeverThrows(s: Replay, ms: seq<Message>)
    requires Sound(s) && AllHaveShares(s.filter, ms)
    ensures HandleAll(s, ms).Done?
    decreases |ms|
  {
    if ms != [] {
      HandleKeepsSound(s, ms[0]);
      SoundNeverThrows(Handle(s, ms[0]).s, ms[1..]);
    }
  }

  /** An order without shares rests at a level that agrees, beside others that have shares. */
  ghost predicate Primed(s: Replay, ref: nat, others: map<nat, nat>) {
    && ref in s.orders && s.orders[ref].remaining == 0 && !Skips(s.filter, s.orders[ref])
    && LevelAt(s, KeyOf(s.orders[ref])) == Grouped(s.orders, KeyOf(s.orders[ref]))
    && others == Resting(s.orders - {ref}, KeyOf(s.orders[ref]))
    && forall r :: r in others ==> others[r] > 0
  }

  lemma PrimedLevel(s: Replay, ref: nat, others: map<nat, nat>)
    requires Primed(s, ref, others)
    ensures var key := KeyOf(s.orders[ref]);
            key in s.levels && s.levels[key] == LevelInfo(Sum(others), |others| + 1)
  {
    var key := KeyOf(s.orders[ref]);
    assert Resting(s.orders, key) == others[ref := 0];
    TotalInsert(others, ref, 0);
    assert others == map[] ==> Sum(others) == 0;
  }

  lemma OthersWithout(others: map<nat, nat>, r: nat)
    requires r in others && forall q :: q in others ==> others[q] > 0
    ensures Sum(others) == others[r] + Sum(others - {r}) && |others| == |others - {r}| + 1
    ensures others - {r} != map[] ==> Sum(others - {r}) > 0 && |others - {r}| > 0
    ensures others - {r} == map[] ==> Sum(others - {r}) == 0
  {
    var rest := others - {r};
    SumWithout(others, r);
    assert others.Keys == rest.Keys + {r} && |others| == |others.Keys| && |rest| == |rest.Keys|;
    if rest != map[] {
      SumPositive(rest);
      assert rest.Keys != {};
    }
  }

  /** Deleting one of the others: the level loses it, and vanishes with the last. */
  lemma DeleteAnother(s: Replay, ref: nat, others: map<nat, nat>, r: nat)
    requires Primed(s, ref, others) && r in others
    ensures RemoveOrder(s, r, 0).Done?
    ensures var t, key, rest := RemoveOrder(s, r, 0).s, KeyOf(s.orders[ref]), others - {r};
            && t.orders == s.orders - {r} && t.filter == s.filter && r != ref
            && (rest != map[] ==> key in t.levels && t.levels[key] == LevelInfo(Sum(rest), |rest| + 1))
            && (rest == map[] ==> key !in t.levels)
  {
    PrimedLevel(s, ref, others);
    OthersWithout(others, r);
  }

  lemma StillPrimed(s: Replay, t: Replay, ref: nat, others: map<nat, nat>, r: nat)
    requires Primed(s, ref, others) && r in others && r != ref && others - {r} != map[]
    requires t.orders == s.orders - {r} && t.filter == s.filter && KeyOf(s.orders[ref]) in t.levels
    requires t.levels[KeyOf(s.orders[ref])] == LevelInfo(Sum(others - {r}), |others - {r}| + 1)
    ensures Primed(t, ref, others - {r})
  {
    var key, rest := KeyOf(s.orders[ref]), others - {r};
    assert Resting(t.orders - {ref}, key) == rest;
    assert Resting(t.orders, key) == rest[ref := 0];
    TotalInsert(rest, ref, 0);
  }

  function Delete(r: nat): Message { OrderDelete(0, r) }

  lemma HandledDelete(s: Replay, r: nat)
    ensures Handle(s, Delete(r)) ==
            match RemoveOrder(s, r, 0)
            case Threw => Threw
            case Done(t) => Done(t.(counts := s.counts.(delete := s.counts.delete + 1)))
  {
  }

  /** Deleting the others, then the order without shares, ends in a failed lookup. */
  lemma {:induction false} DeletingThrows(s: Replay, ref: nat, others: map<nat, nat>) returns (ms: seq<Message>)
    requires Primed(s, ref, others) && others != map[]
    ensures HandleAll(s, ms).Threw? && forall m :: m in ms ==> m.OrderDelete?
    decreases |others|
  {
    assert others.Keys != {};
    var r :| r in others;
    DeleteAnother(s, ref, others, r);
    OthersWithout(others, r);
    HandledDelete(s, r);
    var rest := others - {r};
    var t := Handle(s, Delete(r)).s;
    if rest == map[] {
      ms := [Delete(r), Delete(ref)];
      HandledDelete(t, ref);
      assert ms[1..] == [Delete(ref)] && HandleAll(t, [Delete(ref)]).Threw?;
    } else {
      StillPrimed(s, t, ref, others, r);
      var more := DeletingThrows(t, ref, rest);
      ms := [Delete(r)] + more;
      assert ms[1..] == more;
    }
  }

  lemma {:induction false} UnusedReference(refs: set<nat>) returns (n: nat)
    ensures n !in refs && forall r :: r in refs ==> r < n
    decreases |refs|
  {
    if refs == {} {
      n := 0;
    } else {
      var r :| r in refs;
      var m := UnusedReference(refs - {r});
      n := if r < m then m else r + 1;
      assert forall q :: q in refs ==> q == r || q in refs - {r};
    }
  }

  // ----- exactly when an add is safe -----

  function Added(m: Message): Order
    requires m.AddOrder?
  {
    Order(m.ref, m.side, m.shares, PriceOf(m.price), m.stock)
  }

  lemma EmptyAddPrimes(s: Replay, m: Message)
    requires Inv(s) && m.AddOrder? && m.shares == 0 && m.ref !in s.orders && !Skips(s.filter, Added(m))
    ensures var t := Handle(s, m).s;
            Primed(t, m.ref, Resting(s.orders, KeyOf(Added(m)))) && t.orders == s.orders[m.ref := Added(m)] && t.filter == s.filter
  {
    var o := Added(m);
    var t := AddOrderTo(s, o, m.ts);
    assert Handle(s, m) == Done(t);
    NewAddKeepsIndex(s, o, m.ts);
    assert t.orders - {m.ref} == s.orders;
    assert LevelAt(t, KeyOf(o)) == Grouped(t.orders, KeyOf(o));
  }

  lemma OnlyNeighbour(orders: map<nat, Order>, ref: nat, r: nat, o: Order)
    requires r != ref && Resting(orders - {ref}, KeyOf(o)) == map[]
    ensures Resting(orders[r := o] - {ref}, KeyOf(o)) == map[r := o.remaining]
  {
    forall q | q in orders - {ref}
      ensures KeyOf(orders[q]) != KeyOf(o)
    {
      assert KeyOf(orders[q]) == KeyOf(o) ==> q in Resting(orders - {ref}, KeyOf(o));
    }
  }

  /** If nothing else rests there, one more order does. */
  lemma NeighbourPrimes(s: Replay, ref: nat, o: Order)
    requires Primed(s, ref, map[]) && o.remaining > 0 && o.ref !in s.orders && KeyOf(o) == KeyOf(s.orders[ref])
    ensures !Skips(s.filter, o) && Primed(AddOrderTo(s, o, 0), ref, map[o.ref := o.remaining])
  {
    PrimedLevel(s, ref, map[]);
    GroupedInsert(s.orders, o.ref, o);
    OnlyNeighbour(s.orders, ref, o.ref, o);
  }

  lemma EmptyAddCanThrow(s: Replay, m: Message) returns (ms: seq<Message>)
    requires Inv(s) && m.AddOrder? && m.shares == 0 && m.ref !in s.orders && !Skips(s.filter, Added(m))
    ensures AllHaveShares(s.filter, ms) && HandleAll(Handle(s, m).s, ms).Threw?
  {
    EmptyAddPrimes(s, m);
    var t, others := Handle(s, m).s, Resting(s.orders, KeyOf(Added(m)));
    if others != map[] {
      ms := DeletingThrows(t, m.ref, others);
    } else {
      var unused := UnusedReference(t.orders.Keys);
      var neighbour := m.(ts := 0, ref := unused, shares := 1);
      NeighbourPrimes(t, m.ref, Added(neighbour));
      var one: map<nat, nat> := map[unused := 1];
      assert unused in one;
      assert Handle(t, neighbour) == Done(AddOrderTo(t, Added(neighbour), 0));
      var deletes := DeletingThrows(AddOrderTo(t, Added(neighbour), 0), m.ref, one);
      ms := [neighbour] + deletes;
      assert ms[1..] == deletes;
    }
  }

  lemma InvIsSound(s: Replay)
    requires Inv(s)
    ensures Sound(s)
  {
    forall k
      ensures LevelCovers(s, k)
    {
      assert LevelAt(s, k) == Grouped(s.orders, k);
    }
  }

  /** After an unfiltered add of a new reference to a good state, every further run of adds with
      shares, executions, cancels, deletes and replaces passes its lookups exactly if the add had
      shares itself. */
  lemma AddIsSafeIff(s: Replay, m: Message)
    requires Inv(s) && m.AddOrder? && m.ref !in s.orders && !Skips(s.filter, Added(m))
    ensures (forall ms :: AllHaveShares(s.filter, ms) ==> HandleAll(Handle(s, m).s, ms).Done?) <==> m.shares > 0
  {
    if m.shares > 0 {
      InvIsSound(s);
      HandleKeepsSound(s, m);
      forall ms | AllHaveShares(s.filter, ms)
        ensures HandleAll(Handle(s, m).s, ms).Done?
      {
        SoundNeverThrows(Handle(s, m).s, ms);
      }
    } else {
      var ms := EmptyAddCanThrow(s, m);
    }
  }
}
