/** What a parsed message holds, tag by tag, told from the serialised fields alone
    (src/fix_parser.cpp): order messages (35=D, 35=8) and updates without actions. */
module FixFields {
  import opened FixMessages
  import opened FixParser
  import opened FixBuilder
  import opened FixText

  /** m is what Parse returns for the fields, with or without a trailer behind them. */
  ghost predicate ParsedFrom(fields: seq<Field>, m: FixMessage) {
    exists more: seq<Field> :: Plain(more) && (more != [] ==> more[0].tag == 10)
                   && Declares(Collected([], Serialised(fields + more, SOH)), m)
  }

  /** Field i is the last with its tag. */
  ghost predicate LastOfTag(fields: seq<Field>, i: nat) {
    i < |fields| && forall j :: i < j < |fields| ==> fields[j].tag != fields[i].tag
  }

  lemma CollectsFields(fields: seq<Field>, more: seq<Field>)
    requires Ordinary(fields) && Plain(more) && (more != [] ==> more[0].tag == 10)
    ensures Collected([], Serialised(fields + more, SOH)) == fields
  {
    var text := Serialised(fields + more, SOH);
    assert Tokens(text) == fields + more by { TokensOfSerialised(fields + more); }
    UpToItsTrailer(fields, more);
    CollectedIsTokens([], text);
    assert [] + fields == fields;
  }

  lemma ParsedDeclares(fields: seq<Field>, m: FixMessage)
    requires Ordinary(fields) && ParsedFrom(fields, m)
    ensures Declares(fields, m)
  {
    var more: seq<Field> :| Plain(more) && (more != [] ==> more[0].tag == 10)
                            && Declares(Collected([], Serialised(fields + more, SOH)), m);
    CollectsFields(fields, more);
  }

  /** The last field of a tag decides what the message holds there: text as it stands, whole
      numbers and decimal numbers as the ones they print. */
  ghost predicate HoldsText(m: FixMessage, tag: int, text: string) {
    && (tag == 49 ==> m.sender == text) && (tag == 56 ==> m.target == text)
    && (tag == 52 ==> m.sendTime == text) && (tag == 55 ==> m.symbol == text)
    && (tag == 262 ==> m.reqId == text)
    && (tag == 11 ==> m.order.clOrdId == text) && (tag == 17 ==> m.order.execId == text)
  }

  ghost predicate HoldsInt(m: FixMessage, tag: int, n: int) {
    && (tag == 34 ==> m.seqNum == n) && (tag == 39 ==> m.order.ordStatus == n)
    && (tag == 40 ==> m.order.ordType == n) && (tag == 54 ==> m.order.side == n)
    && (tag == 59 ==> m.order.timeInForce == n)
  }

  ghost predicate HoldsAmount(m: FixMessage, tag: int, x: real) {
    && (tag == 31 ==> m.order.lastPx == x) && (tag == 32 ==> m.order.lastQty == x)
    && (tag == 38 ==> m.order.orderQty == x) && (tag == 44 ==> m.order.orderPrice == x)
  }

  ghost predicate HoldsType(m: FixMessage, text: string) {
    && (text == "D" ==> m.msgType == NewOrderSingle) && (text == "8" ==> m.msgType == ExecutionReport)
    && (text == "W" ==> m.msgType == MarketDataSnapshot) && (text == "X" ==> m.msgType == MarketDataIncremental)
    && (text !in {"D", "8", "W", "X"} ==> m.msgType == Unknown)
  }

  lemma FieldIsHeld(fields: seq<Field>, m: FixMessage, tag: int, text: string)
    requires Declares(fields, m) && LastText(fields, tag) == text
    ensures HoldsText(m, tag, text) && (tag == 35 ==> HoldsType(m, text))
    ensures HoldsInt(m, tag, ParsedInt(text)) && HoldsAmount(m, tag, ParsedDouble(text))
  {
    assert Held(m, tag) == Reading(tag, text);
  }

  /** Whatever fields a message is made of, in whatever order: each one that is the last of its
      tag shows in the message as the text, the number or the type that was written. */
  lemma FieldsRoundTrip(fields: seq<Field>, m: FixMessage, i: nat)
    requires Ordinary(fields) && ParsedFrom(fields, m) && LastOfTag(fields, i)
    ensures HoldsText(m, fields[i].tag, fields[i].value)
    ensures fields[i].tag == 35 ==> HoldsType(m, fields[i].value)
    ensures forall n: int :: fields[i].value == IntText(n) ==> HoldsInt(m, fields[i].tag, n)
    ensures forall x: FixedNumber :: fields[i].value == NumberText(x) ==> HoldsAmount(m, fields[i].tag, NumberValue(x))
  {
    ParsedDeclares(fields, m);
    LastTextAt(fields, i);
    FieldIsHeld(fields, m, fields[i].tag, fields[i].value);
    forall n: int | fields[i].value == IntText(n)
      ensures HoldsInt(m, fields[i].tag, n)
    {
      IntRoundTrip(n);
    }
    forall x: FixedNumber | fields[i].value == NumberText(x)
      ensures HoldsAmount(m, fields[i].tag, NumberValue(x))
    {
      NumberRoundTrip(x);
    }
  }

  /** Tags a message does not carry leave their fields blank. */
  lemma AbsentIsBlank(fields: seq<Field>, m: FixMessage, tag: int)
    requires Ordinary(fields) && ParsedFrom(fields, m)
    requires forall f :: f in fields ==> f.tag != tag
    ensures HoldsText(m, tag, "") && HoldsInt(m, tag, 0) && HoldsAmount(m, tag, 0.0)
    ensures tag == 35 ==> m.msgType == Unknown
  {
    ParsedDeclares(fields, m);
    NoLastText(fields, tag);
    FieldIsHeld(fields, m, tag, "");
    assert ParsedInt("") == 0 && ParsedDouble("") == 0.0;
  }

  lemma {:induction false} NoEntries(fields: seq<Field>)
    requires forall f :: f in fields ==> f.tag < 268 || f.tag > 279
    ensures GroupOf(fields) == Group([], -1)
  {
    if fields != [] {
      assert fields[|fields| - 1] in fields;
      NoEntries(fields[..|fields| - 1]);
    }
  }

  // ----- order messages -----

  /** The last field with the tag, in a list of fields in any order, says `text`. */
  ghost predicate Gives(fields: seq<Field>, tag: int, text: string) {
    exists i: nat :: LastOfTag(fields, i) && fields[i] == Field(tag, text)
  }

  lemma GivesText(fields: seq<Field>, m: FixMessage, tag: int, text: string)
    requires Ordinary(fields) && ParsedFrom(fields, m) && Gives(fields, tag, text)
    ensures HoldsText(m, tag, text) && (tag == 35 ==> HoldsType(m, text))
  {
    var i: nat :| LastOfTag(fields, i) && fields[i] == Field(tag, text);
    FieldsRoundTrip(fields, m, i);
  }

  lemma GivesInt(fields: seq<Field>, m: FixMessage, tag: int, n: int)
    requires Ordinary(fields) && ParsedFrom(fields, m) && Gives(fields, tag, IntText(n))
    ensures HoldsInt(m, tag, n)
  {
    var i: nat :| LastOfTag(fields, i) && fields[i] == Field(tag, IntText(n));
    FieldsRoundTrip(fields, m, i);
  }

  lemma GivesAmount(fields: seq<Field>, m: FixMessage, tag: int, x: FixedNumber)
    requires Ordinary(fields) && ParsedFrom(fields, m) && Gives(fields, tag, NumberText(x))
    ensures HoldsAmount(m, tag, NumberValue(x))
  {
    var i: nat :| LastOfTag(fields, i) && fields[i] == Field(tag, NumberText(x));
    FieldsRoundTrip(fields, m, i);
  }

  /** What both kinds of order message carry. */
  datatype Header = Header(seqNum: int, sender: string, target: string, sendTime: string, symbol: string,
                           clOrdId: string, side: int, ordType: int, quantity: FixedNumber, price: FixedNumber)

  ghost predicate GivesHeader(fields: seq<Field>, kind: string, h: Header) {
    && Gives(fields, 35, kind) && Gives(fields, 34, IntText(h.seqNum))
    && Gives(fields, 49, h.sender) && Gives(fields, 56, h.target) && Gives(fields, 52, h.sendTime)
    && Gives(fields, 55, h.symbol) && Gives(fields, 11, h.clOrdId)
    && Gives(fields, 54, IntText(h.side)) && Gives(fields, 40, IntText(h.ordType))
    && Gives(fields, 38, NumberText(h.quantity)) && Gives(fields, 44, NumberText(h.price))
  }

  /** No market data, and nothing of the given tags. */
  ghost predicate Without(fields: seq<Field>, tags: set<nat>) {
    forall f :: f in fields ==> (f.tag < 268 || f.tag > 279) && (0 <= f.tag ==> f.tag !in tags)
  }

  lemma HeaderRoundTrip(fields: seq<Field>, kind: string, h: Header, m: FixMessage)
    requires Ordinary(fields) && ParsedFrom(fields, m) && GivesHeader(fields, kind, h)
    requires Without(fields, {262})
    ensures HoldsType(m, kind) && m.seqNum == h.seqNum && m.reqId == "" && m.entries == []
    ensures m.sender == h.sender && m.target == h.target && m.sendTime == h.sendTime && m.symbol == h.symbol
    ensures m.order.clOrdId == h.clOrdId && m.order.side == h.side && m.order.ordType == h.ordType
    ensures m.order.orderQty == NumberValue(h.quantity) && m.order.orderPrice == NumberValue(h.price)
  {
    GivesText(fields, m, 35, kind);
    GivesInt(fields, m, 34, h.seqNum);
    GivesText(fields, m, 49, h.sender);
    GivesText(fields, m, 56, h.target);
    GivesText(fields, m, 52, h.sendTime);
    GivesText(fields, m, 55, h.symbol);
    GivesText(fields, m, 11, h.clOrdId);
    GivesInt(fields, m, 54, h.side);
    GivesInt(fields, m, 40, h.ordType);
    GivesAmount(fields, m, 38, h.quantity);
    GivesAmount(fields, m, 44, h.price);
    AbsentIsBlank(fields, m, 262);
    NoEntries(fields);
    ParsedDeclares(fields, m);
  }

  /** A NewOrderSingle, its fields in any order, parses to exactly what they say. */
  lemma NewOrderParses(fields: seq<Field>, h: Header, timeInForce: int, m: FixMessage)
    requires Ordinary(fields) && ParsedFrom(fields, m)
    requires GivesHeader(fields, "D", h) && Gives(fields, 59, IntText(timeInForce))
    requires Without(fields, {262, 17, 39, 31, 32})
    ensures m == FixMessage(NewOrderSingle, h.seqNum, h.sender, h.target, h.sendTime, h.symbol, "", [],
                            OrderFields(h.clOrdId, "", h.side, h.ordType, 0, timeInForce,
                                        NumberValue(h.price), NumberValue(h.quantity), 0.0, 0.0))
  {
    HeaderRoundTrip(fields, "D", h, m);
    GivesInt(fields, m, 59, timeInForce);
    AbsentIsBlank(fields, m, 17);
    AbsentIsBlank(fields, m, 39);
    AbsentIsBlank(fields, m, 31);
    AbsentIsBlank(fields, m, 32);
  }

  /** An ExecutionReport, its fields in any order, parses to exactly what they say. */
  lemma ExecutionParses(fields: seq<Field>, h: Header, execId: string, status: int,
                        lastPx: FixedNumber, lastQty: FixedNumber, m: FixMessage)
    requires Ordinary(fields) && ParsedFrom(fields, m)
    requires GivesHeader(fields, "8", h) && Gives(fields, 17, execId) && Gives(fields, 39, IntText(status))
    requires Gives(fields, 31, NumberText(lastPx)) && Gives(fields, 32, NumberText(lastQty))
    requires Without(fields, {262, 59})
    ensures m == FixMessage(ExecutionReport, h.seqNum, h.sender, h.target, h.sendTime, h.symbol, "", [],
                            OrderFields(h.clOrdId, execId, h.side, h.ordType, status, 0,
                                        NumberValue(h.price), NumberValue(h.quantity), NumberValue(lastQty), NumberValue(lastPx)))
  {
    HeaderRoundTrip(fields, "8", h, m);
    GivesText(fields, m, 17, execId);
    GivesInt(fields, m, 39, status);
    GivesAmount(fields, m, 31, lastPx);
    GivesAmount(fields, m, 32, lastQty);
    AbsentIsBlank(fields, m, 59);
  }

  // ----- updates without actions -----

  lemma EntryWithoutAction(fields: seq<Field>, q: Quote)
    requires LastText(fields, 35) == "X"
    requires GroupOf(fields) == Group([], -1)
             || exists e: MDEntry :: e.updateAction == 0 && GroupOf(fields) == Group([e], 0)
    ensures GroupOf(fields + EntryFields(q)) == Group([Seen(q, false)], 0)
    ensures LastText(fields + EntryFields(q), 35) == "X"
  {
    var e := EntryFields(q);
    ThreeFields(fields, e[0], e[1], e[2]);
    assert fields + [e[0], e[1], e[2]] == fields + e;
    IntRoundTrip(q.entryType);
    NumberRoundTrip(q.price);
    NumberRoundTrip(q.quantity);
  }

  lemma {:induction false} EntriesWithoutActions(head: seq<Field>, quotes: seq<Quote>)
    requires LastText(head, 35) == "X" && GroupOf(head) == Group([], -1)
    ensures LastText(head + QuotesFields(quotes, false), 35) == "X"
    ensures GroupOf(head + QuotesFields(quotes, false)) ==
              if quotes == [] then Group([], -1) else Group([Seen(quotes[|quotes| - 1], false)], 0)
  {
    if quotes == [] {
      assert head + [] == head;
    } else {
      var n := |quotes| - 1;
      EntriesWithoutActions(head, quotes[..n]);
      LastQuoteFields(head, quotes, false);
      assert QuoteFields(quotes[n], false) == EntryFields(quotes[n]);
      EntryWithoutAction(head + QuotesFields(quotes[..n], false), quotes[n]);
    }
  }

  /** A 35=X message that omits tag 279 opens one entry only: of all its quotes it delivers the
      last, as a new level. */
  lemma {:induction false} OnlyLastWithoutActions(head: seq<Field>, quotes: seq<Quote>, m: FixMessage)
    requires LastText(head, 35) == "X"
    requires head != [] && head[|head| - 1].tag == 268
    requires Ordinary(head + QuotesFields(quotes, false)) && ParsedFrom(head + QuotesFields(quotes, false), m)
    ensures m.entries == if quotes == [] then [] else
              var q := quotes[|quotes| - 1];
              [MDEntry(q.entryType, 0, NumberValue(q.price), NumberValue(q.quantity))]
  {
    EntriesWithoutActions(head, quotes);
    var fields := head + QuotesFields(quotes, false);
    assert m.entries == GroupOf(fields).entries by { ParsedDeclares(fields, m); }
  }
}
