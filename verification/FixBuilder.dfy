/** build_fix_message of src/fix_parser.cpp, and the round trip through the parser. */
module FixBuilder {
  import opened FixMessages
  import opened FixParser
  import opened FixText
  import opened TextSearch

  // ----- sending time -----

  type Small = n: int | 0 <= n < 100

  datatype Utc = Utc(century: Small, yearOfCentury: Small, month: Small, day: Small, hour: Small, minute: Small, second: Small)

  function Pad2(n: Small): string { [CharOf(n / 10), CharOf(n % 10)] }

  /** strftime with "%Y%m%d-%H:%M:%S". */
  function ClockText(t: Utc): (s: string)
    ensures |s| == 17
  {
    Pad2(t.century) + Pad2(t.yearOfCentury) + Pad2(t.month) + Pad2(t.day) + "-" +
    Pad2(t.hour) + ":" + Pad2(t.minute) + ":" + Pad2(t.second)
  }

  type Millis = n: int | 0 <= n < 1000

  /** The milliseconds are written over the buffer from position 15 on. */
  function SendingTime(t: Utc, ms: Millis): string {
    ClockText(t)[..15] + "." + Pad3(ms)
  }

  /** Field 52 never carries the seconds it announces: the text is not the timestamp
      YYYYMMDD-HH:MM:SS.sss, and moments that differ in their seconds look alike. */
  lemma SecondsAreLost(t: Utc, ms: Millis, second: Small)
    ensures SendingTime(t, ms) != ClockText(t) + "." + Pad3(ms)
    ensures SendingTime(t.(second := second), ms) == SendingTime(t, ms)
  {
    assert |SendingTime(t, ms)| == 19;
    assert ClockText(t.(second := second))[..15] == ClockText(t)[..15];
  }

  lemma SendingTimeIsPlain(t: Utc, ms: Millis)
    ensures SOH !in SendingTime(t, ms)
  {
    assert forall c :: c in ClockText(t)[..15] ==> c in ClockText(t);
    assert forall n: Small, c :: c in Pad2(n) ==> IsDigit(c);
  }

  // ----- the fields of a message -----

  datatype Quote = Quote(entryType: int, updateAction: int, price: FixedNumber, quantity: FixedNumber)

  /** What build_snapshot and build_incremental are given, and the clock they read. */
  datatype Draft = Draft(incremental: bool, symbol: string, quotes: seq<Quote>, seqNum: int, time: Utc, ms: Millis)

  function KindText(incremental: bool): string { if incremental then "X" else "W" }

  function HeadFields(o: Draft): seq<Field> {
    [Field(35, KindText(o.incremental)), Field(34, IntText(o.seqNum)), Field(49, "SIMULATOR"), Field(56, "CLIENT"),
     Field(52, SendingTime(o.time, o.ms)), Field(55, o.symbol), Field(268, IntText(|o.quotes|))]
  }

  function EntryFields(q: Quote): seq<Field> {
    [Field(269, IntText(q.entryType)), Field(270, NumberText(q.price)), Field(271, NumberText(q.quantity))]
  }

  function QuoteFields(q: Quote, incremental: bool): seq<Field> {
    (if incremental then [Field(279, IntText(q.updateAction))] else []) + EntryFields(q)
  }

  function QuotesFields(quotes: seq<Quote>, incremental: bool): seq<Field> {
    if quotes == [] then []
    else QuotesFields(quotes[..|quotes| - 1], incremental) + QuoteFields(quotes[|quotes| - 1], incremental)
  }

  function BodyFields(o: Draft): seq<Field> { HeadFields(o) + QuotesFields(o.quotes, o.incremental) }

  function FrontFields(bodyLength: nat): seq<Field> { [Field(8, "FIX.4.4"), Field(9, IntText(bodyLength))] }

  function ByteSum(s: string): nat {
    if s == "" then 0 else ByteSum(s[..|s| - 1]) + s[|s| - 1] as int
  }

  /** Everything before the checksum field. */
  function Covered(o: Draft, delim: char): string {
    var body := Serialised(BodyFields(o), delim);
    Serialised(FrontFields(|body|), delim) + body
  }

  function Built(o: Draft, delim: char): string {
    var covered := Covered(o, delim);
    covered + FieldText(Field(TRAILER, Pad3(ByteSum(covered) % 256)), delim)
  }

  // ----- the builder -----

  lemma TagTexts()
    ensures IntText(8) == "8" && IntText(9) == "9" && IntText(10) == "10"
    ensures IntText(34) == "34" && IntText(35) == "35" && IntText(49) == "49"
    ensures IntText(52) == "52" && IntText(55) == "55" && IntText(56) == "56"
    ensures IntText(268) == "268" && IntText(269) == "269" && IntText(270) == "270"
    ensures IntText(271) == "271" && IntText(279) == "279"
  {
    assert Decimal(2) == "2" && Decimal(26) == "26" && Decimal(27) == "27";
  }

  lemma SerialisedOne(f: Field, delim: char)
    ensures Serialised([f], delim) == FieldText(f, delim)
  {
    assert Serialised([f], delim) == FieldText(f, delim) + "";
  }

  lemma SerialisedThree(a: Field, b: Field, c: Field, delim: char)
    ensures Serialised([a, b, c], delim) == FieldText(a, delim) + FieldText(b, delim) + FieldText(c, delim)
  {
    assert [a] + [b] + [c] == [a, b, c];
    SerialisedAppend([a] + [b], [c], delim);
    SerialisedAppend([a], [b], delim);
    SerialisedOne(a, delim);
    SerialisedOne(b, delim);
    SerialisedOne(c, delim);
  }

  /** What one `<< "tag=" << value << delim` adds to a stream. */
  method Put(tag: string, value: string, delim: char, ghost f: Field) returns (r: string)
    requires tag == IntText(f.tag) && value == f.value
    ensures r == FieldText(f, delim)
  {
    r := tag + "=" + value + [delim];
  }

  /** The fields up to the sender. */
  function RouteFields(o: Draft): seq<Field> {
    [Field(35, KindText(o.incremental)), Field(34, IntText(o.seqNum)), Field(49, "SIMULATOR")]
  }

  function SubjectFields(o: Draft): seq<Field> {
    [Field(56, "CLIENT"), Field(52, SendingTime(o.time, o.ms)), Field(55, o.symbol)]
  }

  lemma HeadInParts(o: Draft)
    ensures HeadFields(o) == RouteFields(o) + SubjectFields(o) + [Field(268, IntText(|o.quotes|))]
  {
  }

  method PutRoute(o: Draft, delim: char) returns (text: string)
    ensures text == Serialised(RouteFields(o), delim)
  {
    ghost var f := RouteFields(o);
    assert IntText(35) == "35" && IntText(34) == "34" && IntText(49) == "49" by { TagTexts(); }
    var kind := Put("35", if o.incremental then "X" else "W", delim, f[0]);
    var seqNum := Put("34", IntText(o.seqNum), delim, f[1]);
    var sender := Put("49", "SIMULATOR", delim, f[2]);
    SerialisedThree(f[0], f[1], f[2], delim);
    text := kind + seqNum + sender;
  }

  method PutSubject(o: Draft, delim: char) returns (text: string)
    ensures text == Serialised(SubjectFields(o), delim)
  {
    ghost var f := SubjectFields(o);
    assert IntText(56) == "56" && IntText(52) == "52" && IntText(55) == "55" by { TagTexts(); }
    var target := Put("56", "CLIENT", delim, f[0]);
    var time := Put("52", SendingTime(o.time, o.ms), delim, f[1]);
    var symbol := Put("55", o.symbol, delim, f[2]);
    SerialisedThree(f[0], f[1], f[2], delim);
    text := target + time + symbol;
  }

  method PutHead(o: Draft, delim: char) returns (body: string)
    ensures body == Serialised(HeadFields(o), delim)
  {
    ghost var size := Field(268, IntText(|o.quotes|));
    var route := PutRoute(o, delim);
    var subject := PutSubject(o, delim);
    assert IntText(268) == "268" by { TagTexts(); }
    var count := Put("268", IntText(|o.quotes|), delim, size);
    HeadInParts(o);
    SerialisedAppend(RouteFields(o) + SubjectFields(o), [size], delim);
    SerialisedAppend(RouteFields(o), SubjectFields(o), delim);
    SerialisedOne(size, delim);
    body := route + subject + count;
  }

  method PutEntry(q: Quote, delim: char) returns (r: string)
    ensures r == Serialised(EntryFields(q), delim)
  {
    ghost var f := EntryFields(q);
    assert IntText(269) == "269" && IntText(270) == "270" && IntText(271) == "271" by { TagTexts(); }
    var kind := Put("269", IntText(q.entryType), delim, f[0]);
    var price := Put("270", NumberText(q.price), delim, f[1]);
    var quantity := Put("271", NumberText(q.quantity), delim, f[2]);
    SerialisedThree(f[0], f[1], f[2], delim);
    r := kind + price + quantity;
  }

  method PutQuote(q: Quote, incremental: bool, delim: char) returns (r: string)
    ensures r == Serialised(QuoteFields(q, incremental), delim)
  {
    var entry := PutEntry(q, delim);
    if incremental {
      ghost var f := Field(279, IntText(q.updateAction));
      assert IntText(279) == "279" by { TagTexts(); }
      var action := Put("279", IntText(q.updateAction), delim, f);
      SerialisedOne(f, delim);
      SerialisedAppend([f], EntryFields(q), delim);
      r := action + entry;
    } else {
      assert [] + EntryFields(q) == EntryFields(q);
      r := entry;
    }
  }

  lemma QuotesFieldsGrow(quotes: seq<Quote>, i: nat, incremental: bool)
    requires i < |quotes|
    ensures QuotesFields(quotes[..i + 1], incremental) ==
            QuotesFields(quotes[..i], incremental) + QuoteFields(quotes[i], incremental)
  {
    assert quotes[..i + 1][..i] == quotes[..i];
  }

  lemma SerialisedThen(head: seq<Field>, done: seq<Field>, next: seq<Field>, delim: char)
    ensures Serialised(head + (done + next), delim) == Serialised(head + done, delim) + Serialised(next, delim)
  {
    assert head + (done + next) == (head + done) + next;
    SerialisedAppend(head + done, next, delim);
  }

  method PutQuotes(head: string, quotes: seq<Quote>, incremental: bool, delim: char, ghost fields: seq<Field>)
    returns (body: string)
    requires head == Serialised(fields, delim)
    ensures body == Serialised(fields + QuotesFields(quotes, incremental), delim)
  {
    body := head;
    assert fields + [] == fields;
    for i := 0 to |quotes|
      invariant body == Serialised(fields + QuotesFields(quotes[..i], incremental), delim)
    {
      var quote := PutQuote(quotes[i], incremental, delim);
      QuotesFieldsGrow(quotes, i, incremental);
      SerialisedThen(fields, QuotesFields(quotes[..i], incremental), QuoteFields(quotes[i], incremental), delim);
      body := body + quote;
    }
    assert quotes[..|quotes|] == quotes;
  }

  lemma SerialisedPair(a: Field, b: Field, delim: char)
    ensures Serialised([a, b], delim) == FieldText(a, delim) + FieldText(b, delim)
  {
    assert [a] + [b] == [a, b];
    SerialisedAppend([a], [b], delim);
    SerialisedOne(a, delim);
    SerialisedOne(b, delim);
  }

  method PutFront(bodyLength: nat, delim: char) returns (front: string)
    ensures front == Serialised(FrontFields(bodyLength), delim)
  {
    ghost var f := FrontFields(bodyLength);
    assert IntText(8) == "8" && IntText(9) == "9" by { TagTexts(); }
    var begin := Put("8", "FIX.4.4", delim, f[0]);
    var length := Put("9", IntText(bodyLength), delim, f[1]);
    SerialisedPair(f[0], f[1], delim);
    front := begin + length;
  }

  method Checksum(s: string) returns (sum: nat)
    ensures sum == ByteSum(s) % 256
  {
    sum := 0;
    for i := 0 to |s|
      invariant sum == ByteSum(s[..i])
    {
      assert s[..i + 1][..i] == s[..i];
      sum := sum + s[i] as int;
    }
    assert s[..|s|] == s;
    sum := sum % 256;
  }

  method BuildFixMessage(o: Draft, delim: char) returns (msg: string)
    ensures msg == Built(o, delim)
  {
    var head := PutHead(o, delim);
    var body := PutQuotes(head, o.quotes, o.incremental, delim, HeadFields(o));
    var front := PutFront(|body|, delim);
    msg := front + body;
    var sum := Checksum(msg);
    assert IntText(TRAILER) == "10" by { TagTexts(); }
    var trailer := Put("10", Pad3(sum), delim, Field(TRAILER, Pad3(sum)));
    msg := msg + trailer;
  }

  // ----- the round trip -----

  /** What a receiver should see of one quote; the update action travels only in 35=X. */
  function Seen(q: Quote, incremental: bool): MDEntry {
    MDEntry(q.entryType, if incremental then q.updateAction else 0, NumberValue(q.price), NumberValue(q.quantity))
  }

  function SeenAll(quotes: seq<Quote>, incremental: bool): (r: seq<MDEntry>)
    ensures |r| == |quotes|
  {
    seq(|quotes|, i requires 0 <= i < |quotes| => Seen(quotes[i], incremental))
  }

  function Delivered(o: Draft): FixMessage {
    var n := if |o.quotes| < MAX_ENTRIES then |o.quotes| else MAX_ENTRIES;
    FixMessage(if o.incremental then MarketDataIncremental else MarketDataSnapshot, o.seqNum, "SIMULATOR", "CLIENT",
               SendingTime(o.time, o.ms), o.symbol, "", SeenAll(o.quotes[..n], o.incremental), BLANK_ORDER)
  }

  lemma OneField(fields: seq<Field>, f: Field)
    ensures GroupOf(fields + [f]) == Extended(GroupOf(fields), TypeOf(LastText(fields, 35)), f)
    ensures forall tag :: LastText(fields + [f], tag) == if f.tag == tag then f.value else LastText(fields, tag)
  {
    assert (fields + [f])[..|fields|] == fields;
  }

  /** The group machine after one more quote: a new last entry, or nothing beyond the cap. */
  function Grown(g: Group, e: MDEntry): Group {
    if |g.entries| < MAX_ENTRIES then Group(g.entries + [e], |g.entries|) else Group(g.entries, -1)
  }

  /** The group part of one quote, whatever came before. */
  lemma QuoteExtends(g: Group, q: Quote, incremental: bool)
    requires InRange(g)
    ensures var kind := TypeOf(KindText(incremental));
            var begun := if incremental then Extended(g, kind, Field(279, IntText(q.updateAction))) else g;
            var typed := Extended(begun, kind, Field(269, IntText(q.entryType)));
            var priced := Extended(typed, kind, Field(270, NumberText(q.price)));
            Extended(priced, kind, Field(271, NumberText(q.quantity))) == Grown(g, Seen(q, incremental))
  {
    IntRoundTrip(q.updateAction);
    IntRoundTrip(q.entryType);
    NumberRoundTrip(q.price);
    NumberRoundTrip(q.quantity);
  }

  lemma TwoFields(fields: seq<Field>, a: Field, b: Field)
    requires 35 !in {a.tag, b.tag}
    ensures var kind := TypeOf(LastText(fields, 35));
            GroupOf(fields + [a, b]) == Extended(Extended(GroupOf(fields), kind, a), kind, b)
    ensures forall tag: int :: tag !in {a.tag, b.tag} ==> LastText(fields + [a, b], tag) == LastText(fields, tag)
  {
    OneField(fields, a);
    OneField(fields + [a], b);
    assert fields + [a] + [b] == fields + [a, b];
  }

  lemma ThreeFields(fields: seq<Field>, a: Field, b: Field, c: Field)
    requires 35 !in {a.tag, b.tag, c.tag}
    ensures var kind := TypeOf(LastText(fields, 35));
            GroupOf(fields + [a, b, c]) == Extended(Extended(Extended(GroupOf(fields), kind, a), kind, b), kind, c)
    ensures forall tag: int :: tag !in {a.tag, b.tag, c.tag} ==> LastText(fields + [a, b, c], tag) == LastText(fields, tag)
  {
    TwoFields(fields, a, b);
    OneField(fields + [a, b], c);
    assert fields + [a, b] + [c] == fields + [a, b, c];
  }

  predicate GroupTag(tag: int) { tag in {269, 270, 271, 279} }

  /** Fields read after head that leave every header value alone and the group at g. */
  ghost predicate Leaves(head: seq<Field>, fields: seq<Field>, g: Group) {
    (forall tag: int :: !GroupTag(tag) ==> LastText(fields, tag) == LastText(head, tag)) && GroupOf(fields) == g
  }

  lemma SnapshotQuoteParses(fields: seq<Field>, q: Quote)
    requires LastText(fields, 35) == "W"
    ensures Leaves(fields, fields + QuoteFields(q, false), Grown(GroupOf(fields), Seen(q, false)))
  {
    var a, b, c := Field(269, IntText(q.entryType)), Field(270, NumberText(q.price)), Field(271, NumberText(q.quantity));
    QuoteExtends(GroupOf(fields), q, false);
    ThreeFields(fields, a, b, c);
    assert [] + [a, b, c] == [a, b, c];
  }

  lemma FourFields(fields: seq<Field>, z: Field, a: Field, b: Field, c: Field)
    requires 35 !in {z.tag, a.tag, b.tag, c.tag}
    ensures var kind := TypeOf(LastText(fields, 35));
            GroupOf(fields + ([z] + [a, b, c])) ==
              Extended(Extended(Extended(Extended(GroupOf(fields), kind, z), kind, a), kind, b), kind, c)
    ensures forall tag: int :: tag !in {z.tag, a.tag, b.tag, c.tag} ==>
              LastText(fields + ([z] + [a, b, c]), tag) == LastText(fields, tag)
  {
    OneField(fields, z);
    ThreeFields(fields + [z], a, b, c);
    assert fields + [z] + [a, b, c] == fields + ([z] + [a, b, c]);
  }

  lemma IncrementalQuoteParses(fields: seq<Field>, q: Quote)
    requires LastText(fields, 35) == "X"
    ensures Leaves(fields, fields + QuoteFields(q, true), Grown(GroupOf(fields), Seen(q, true)))
  {
    var e := EntryFields(q);
    QuoteExtends(GroupOf(fields), q, true);
    FourFields(fields, Field(279, IntText(q.updateAction)), e[0], e[1], e[2]);
  }

  lemma QuoteParses(head: seq<Field>, fields: seq<Field>, g: Group, q: Quote, incremental: bool)
    requires LastText(head, 35) == KindText(incremental) && Leaves(head, fields, g) && InRange(g)
    ensures Leaves(head, fields + QuoteFields(q, incremental), Grown(g, Seen(q, incremental)))
  {
    assert !GroupTag(35) && LastText(fields, 35) == LastText(head, 35);
    if incremental {
      IncrementalQuoteParses(fields, q);
    } else {
      SnapshotQuoteParses(fields, q);
    }
  }

  function Gathered(quotes: seq<Quote>, incremental: bool): (g: Group)
    ensures InRange(g)
  {
    if quotes == [] then Group([], -1)
    else Grown(Gathered(quotes[..|quotes| - 1], incremental), Seen(quotes[|quotes| - 1], incremental))
  }

  /** Of the quotes, the first ones up to the cap are gathered, in order. */
  lemma {:induction false} GatheredFirst(quotes: seq<Quote>, incremental: bool)
    ensures Gathered(quotes, incremental).entries ==
            SeenAll(quotes[..if |quotes| < MAX_ENTRIES then |quotes| else MAX_ENTRIES], incremental)
  {
    if quotes != [] {
      var n := |quotes| - 1;
      GatheredFirst(quotes[..n], incremental);
      if n < MAX_ENTRIES {
        assert SeenAll(quotes[..n], incremental) + [Seen(quotes[n], incremental)] == SeenAll(quotes[..n + 1], incremental);
      } else {
        assert quotes[..n][..MAX_ENTRIES] == quotes[..MAX_ENTRIES];
      }
    }
  }

  lemma LastQuoteFields(head: seq<Field>, quotes: seq<Quote>, incremental: bool)
    requires quotes != []
    ensures head + QuotesFields(quotes, incremental) ==
            head + QuotesFields(quotes[..|quotes| - 1], incremental) + QuoteFields(quotes[|quotes| - 1], incremental)
  {
  }

  lemma {:induction false} QuotesParse(head: seq<Field>, quotes: seq<Quote>, incremental: bool)
    requires LastText(head, 35) == KindText(incremental) && Leaves(head, head, Group([], -1))
    ensures Leaves(head, head + QuotesFields(quotes, incremental), Gathered(quotes, incremental))
  {
    if quotes == [] {
      assert head + [] == head;
    } else {
      var n := |quotes| - 1;
      QuotesParse(head, quotes[..n], incremental);
      QuoteParses(head, head + QuotesFields(quotes[..n], incremental), Gathered(quotes[..n], incremental), quotes[n], incremental);
      LastQuoteFields(head, quotes, incremental);
    }
  }

  // The header.

  lemma {:induction false} LastTextAt(fields: seq<Field>, i: nat)
    requires i < |fields| && forall j :: i < j < |fields| ==> fields[j].tag != fields[i].tag
    ensures LastText(fields, fields[i].tag) == fields[i].value
    decreases |fields|
  {
    if i < |fields| - 1 { LastTextAt(fields[..|fields| - 1], i); }
  }

  lemma {:induction false} NoLastText(fields: seq<Field>, tag: int)
    requires forall j :: 0 <= j < |fields| ==> fields[j].tag != tag
    ensures LastText(fields, tag) == ""
  {
    if fields != [] { NoLastText(fields[..|fields| - 1], tag); }
  }

  function Header(o: Draft, bodyLength: nat): seq<Field> { FrontFields(bodyLength) + HeadFields(o) }

  lemma HeaderTags(o: Draft, bodyLength: nat)
    ensures var h := Header(o, bodyLength);
            |h| == 9 && h[0].tag == 8 && h[1].tag == 9 && h[2] == HeadFields(o)[0] && h[3] == HeadFields(o)[1] &&
            h[4] == HeadFields(o)[2] && h[5] == HeadFields(o)[3] && h[6] == HeadFields(o)[4] &&
            h[7] == HeadFields(o)[5] && h[8].tag == 268
  {
  }

  lemma HeaderDeclares(o: Draft, bodyLength: nat, tag: int)
    ensures Held(Delivered(o), tag) == Reading(tag, LastText(Header(o, bodyLength), tag))
  {
    var h := Header(o, bodyLength);
    HeaderTags(o, bodyLength);
    if i: int :| 2 <= i < 8 && h[i].tag == tag {
      LastTextAt(h, i);
      IntRoundTrip(o.seqNum);
    } else if tag != 8 && tag != 9 && tag != 268 {
      NoLastText(h, tag);
    }
  }

  // The whole message.

  lemma DigitsArePlain(s: string)
    requires forall i :: 0 <= i < |s| ==> IsDigit(s[i])
    ensures SOH !in s
  {
  }

  lemma NumbersArePlain(n: int, x: FixedNumber)
    ensures SOH !in IntText(n) && SOH !in NumberText(x)
  {
    DigitsArePlain(Decimal(if n < 0 then -n else n));
    DigitsArePlain(Decimal(x.whole));
    DigitsArePlain(DigitText(x.fraction));
    assert SOH !in Tail(x.fraction);
  }

  lemma QuoteFieldsArePlain(q: Quote, incremental: bool)
    ensures forall f :: f in QuoteFields(q, incremental) ==> SOH !in f.value && f.tag != TRAILER
  {
    NumbersArePlain(q.updateAction, q.price);
    NumbersArePlain(q.entryType, q.quantity);
  }

  lemma {:induction false} QuotesFieldsArePlain(quotes: seq<Quote>, incremental: bool)
    ensures Ordinary(QuotesFields(quotes, incremental))
  {
    if quotes != [] {
      QuotesFieldsArePlain(quotes[..|quotes| - 1], incremental);
      QuoteFieldsArePlain(quotes[|quotes| - 1], incremental);
    }
  }

  lemma ConstantsArePlain()
    ensures SOH !in "SIMULATOR" && SOH !in "CLIENT" && SOH !in "FIX.4.4" && SOH !in KindText(true) && SOH !in KindText(false)
  {
  }

  lemma FrontIsPlain(bodyLength: nat)
    ensures Ordinary(FrontFields(bodyLength))
  {
    ConstantsArePlain();
    NumbersArePlain(bodyLength, FixedNumber(false, 0, []));
  }

  lemma HeadIsPlain(o: Draft)
    requires SOH !in o.symbol
    ensures Ordinary(HeadFields(o))
  {
    ConstantsArePlain();
    NumbersArePlain(o.seqNum, FixedNumber(false, 0, []));
    NumbersArePlain(|o.quotes|, FixedNumber(false, 0, []));
    SendingTimeIsPlain(o.time, o.ms);
    var h := HeadFields(o);
    assert SOH !in h[0].value && SOH !in h[1].value && SOH !in h[2].value && SOH !in h[3].value;
    assert SOH !in h[4].value && SOH !in h[5].value && SOH !in h[6].value;
  }

  /** The fields of the message before its trailer. */
  function AllFields(o: Draft, delim: char): seq<Field> {
    Header(o, |Serialised(BodyFields(o), delim)|) + QuotesFields(o.quotes, o.incremental)
  }

  function Trailer(o: Draft, delim: char): Field { Field(TRAILER, Pad3(ByteSum(Covered(o, delim)) % 256)) }

  lemma BuiltIsSerialised(o: Draft, delim: char)
    ensures Covered(o, delim) == Serialised(AllFields(o, delim), delim)
    ensures Built(o, delim) == Serialised(AllFields(o, delim) + [Trailer(o, delim)], delim)
  {
    var n := |Serialised(BodyFields(o), delim)|;
    assert AllFields(o, delim) == FrontFields(n) + BodyFields(o);
    SerialisedAppend(FrontFields(n), BodyFields(o), delim);
    SerialisedAppend(AllFields(o, delim), [Trailer(o, delim)], delim);
    SerialisedOne(Trailer(o, delim), delim);
  }

  predicate Ordinary(fields: seq<Field>) {
    forall f :: f in fields ==> SOH !in f.value && f.tag != TRAILER
  }

  lemma OrdinaryAppend(a: seq<Field>, b: seq<Field>)
    requires Ordinary(a) && Ordinary(b)
    ensures Ordinary(a + b)
  {
  }

  lemma AllFieldsAreOrdinary(o: Draft, delim: char)
    requires SOH !in o.symbol
    ensures Ordinary(AllFields(o, delim))
  {
    var n := |Serialised(BodyFields(o), delim)|;
    FrontIsPlain(n);
    HeadIsPlain(o);
    QuotesFieldsArePlain(o.quotes, o.incremental);
    OrdinaryAppend(FrontFields(n), HeadFields(o));
    OrdinaryAppend(Header(o, n), QuotesFields(o.quotes, o.incremental));
  }

  lemma AllFieldsArePlain(o: Draft, delim: char)
    requires SOH !in o.symbol
    ensures Plain(AllFields(o, delim) + [Trailer(o, delim)])
    ensures forall f :: f in AllFields(o, delim) ==> f.tag != TRAILER
  {
    AllFieldsAreOrdinary(o, delim);
    DigitsArePlain(Trailer(o, delim).value);
  }

  lemma BuiltCollects(o: Draft)
    requires SOH !in o.symbol
    ensures Collected([], Built(o, SOH)) == AllFields(o, SOH)
  {
    var fields, trailer := AllFields(o, SOH), Trailer(o, SOH);
    BuiltIsSerialised(o, SOH);
    AllFieldsArePlain(o, SOH);
    TokensOfSerialised(fields + [trailer]);
    UpToItsTrailer(fields, [trailer]);
    CollectedIsTokens([], Built(o, SOH));
  }

  lemma HeaderLeaves(o: Draft, bodyLength: nat)
    ensures LastText(Header(o, bodyLength), 35) == KindText(o.incremental)
    ensures Leaves(Header(o, bodyLength), Header(o, bodyLength), Group([], -1))
  {
    HeaderTags(o, bodyLength);
    LastTextAt(Header(o, bodyLength), 2);
  }

  lemma HeaderThenQuotes(o: Draft, bodyLength: nat)
    ensures Leaves(Header(o, bodyLength), Header(o, bodyLength) + QuotesFields(o.quotes, o.incremental),
                   Gathered(o.quotes, o.incremental))
  {
    HeaderLeaves(o, bodyLength);
    QuotesParse(Header(o, bodyLength), o.quotes, o.incremental);
  }

  lemma LeavesDeclares(head: seq<Field>, fields: seq<Field>, g: Group, m: FixMessage)
    requires Leaves(head, fields, g) && m.entries == g.entries
    requires forall tag: int :: Held(m, tag) == Reading(tag, LastText(head, tag))
    ensures Declares(fields, m)
  {
    forall tag: int
      ensures Held(m, tag) == Reading(tag, LastText(fields, tag))
    {
      assert GroupTag(tag) ==> Held(m, tag) == Nothing == Reading(tag, LastText(fields, tag));
      assert Held(m, tag) == Reading(tag, LastText(head, tag));
    }
  }

  lemma FieldsDeclare(o: Draft, delim: char)
    ensures Declares(AllFields(o, delim), Delivered(o))
  {
    var n := |Serialised(BodyFields(o), delim)|;
    HeaderThenQuotes(o, n);
    GatheredFirst(o.quotes, o.incremental);
    forall tag: int
      ensures Held(Delivered(o), tag) == Reading(tag, LastText(Header(o, n), tag))
    {
      HeaderDeclares(o, n, tag);
    }
    LeavesDeclares(Header(o, n), AllFields(o, delim), Gathered(o.quotes, o.incremental), Delivered(o));
  }

  /** Parsing a built message gives back exactly its type, sequence number, symbol and first
      quotes up to the cap, for every SOH-free symbol and every number in fixed notation. */
  lemma BuiltParses(o: Draft, m: FixMessage)
    requires SOH !in o.symbol
    ensures Declares(Collected([], Built(o, SOH)), m) <==> m == Delivered(o)
  {
    BuiltCollects(o);
    FieldsDeclare(o, SOH);
    if Declares(Collected([], Built(o, SOH)), m) {
      DeclaredOnce(AllFields(o, SOH), m, Delivered(o));
    }
  }

  /** The frame of FIX 4.4's Standard Message Header and Trailer, as a receiver checks it:
      BodyLength counts the characters after its own field up to the CheckSum field, and
      CheckSum, three digits, reads as the sum of all characters before its own field. */
  predicate FrameChecks(msg: string) {
    match NextToken(msg)
    case Exhausted => false
    case Token(begin, afterBegin) =>
      begin.tag == 8 &&
      match NextToken(afterBegin)
      case Exhausted => false
      case Token(length, rest) =>
        var n := ParsedInt(length.value);
        length.tag == 9 && 0 <= n <= |rest| <= |msg| &&
        TrailerChecks(rest[n..], ByteSum(msg[..|msg| - |rest| + n]))
  }

  predicate TrailerChecks(trailer: string, sum: nat) {
    match NextToken(trailer)
    case Exhausted => false
    case Token(check, rest) =>
      check.tag == TRAILER && |check.value| == 3 && ParsedInt(check.value) == sum % 256 &&
      rest == "" && trailer == FieldText(check, SOH)
  }

  lemma TrailerReads(sum: nat)
    ensures TrailerChecks(FieldText(Field(TRAILER, Pad3(sum % 256)), SOH), sum)
  {
    var check := Field(TRAILER, Pad3(sum % 256));
    Pad3Reads(sum % 256);
    DigitsArePlain(check.value);
    FirstToken(check, "");
    assert FieldText(check, SOH) + "" == FieldText(check, SOH);
  }

  lemma FrameOf(begin: Field, length: Field, body: string)
    requires begin.tag == 8 && length.tag == 9 && SOH !in begin.value && SOH !in length.value
    requires ParsedInt(length.value) == |body|
    ensures var covered := Serialised([begin, length], SOH) + body;
            FrameChecks(covered + FieldText(Field(TRAILER, Pad3(ByteSum(covered) % 256)), SOH))
  {
    var front := Serialised([begin, length], SOH);
    var covered := front + body;
    var rest := body + FieldText(Field(TRAILER, Pad3(ByteSum(covered) % 256)), SOH);
    var msg := front + rest;
    assert msg == covered + FieldText(Field(TRAILER, Pad3(ByteSum(covered) % 256)), SOH);
    SerialisedPair(begin, length, SOH);
    assert msg == FieldText(begin, SOH) + (FieldText(length, SOH) + rest);
    FirstToken(begin, FieldText(length, SOH) + rest);
    FirstToken(length, rest);
    assert msg[..|msg| - |rest| + |body|] == covered;
    assert rest[|body|..] == FieldText(Field(TRAILER, Pad3(ByteSum(covered) % 256)), SOH);
    TrailerReads(ByteSum(covered));
  }

  lemma BuiltFrameChecks(o: Draft)
    ensures FrameChecks(Built(o, SOH))
  {
    var body := Serialised(BodyFields(o), SOH);
    ConstantsArePlain();
    NumbersArePlain(|body|, FixedNumber(false, 0, []));
    IntRoundTrip(|body|);
    FrameOf(Field(8, "FIX.4.4"), Field(9, IntText(|body|)), body);
  }

  lemma {:induction false} SerialisedIsPlain(fields: seq<Field>, delim: char)
    requires Plain(fields) && delim != SOH
    ensures SOH !in Serialised(fields, delim)
  {
    if fields != [] {
      SerialisedIsPlain(fields[1..], delim);
      NumbersArePlain(fields[0].tag, FixedNumber(false, 0, []));
    }
  }

  lemma LoneField(f: Field, m: FixMessage)
    requires f.tag == 8
    ensures Declares([f], m) <==> m == BLANK_MESSAGE
  {
    NothingDeclared();
    assert [f][..0] == [];
    forall tag: int
      ensures Reading(tag, LastText([f], tag)) == Reading(tag, LastText([], tag))
    {
    }
    if Declares([f], m) {
      DeclaredOnce([f], m, BLANK_MESSAGE);
    }
  }

  lemma CollectsOneField(msg: string, rest: string)
    requires msg == "8=" + rest && SOH !in msg
    ensures Collected([], msg) == [Field(8, rest)]
  {
    assert msg == "8" + ['='] + rest;
    FirstIndex("8", '=', rest);
    assert IntText(8) == "8";
    IntRoundTrip(8);
    assert msg[..1] == "8" && msg[2..] == rest;
    assert forall c :: c in rest ==> c in msg;
    assert IndexOf(rest, SOH) == |rest|;
    assert NextToken(msg) == Token(Field(8, rest), "");
    assert NextToken("") == Exhausted;
  }

  /** The human-readable form, with '|' for SOH, is one single field to the parser: it parses
      as a blank message of unknown type. */
  lemma LoggedFormIsRejected(o: Draft, m: FixMessage)
    requires SOH !in o.symbol
    ensures Declares(Collected([], Built(o, '|')), m) <==> m == BLANK_MESSAGE
  {
    var msg := Built(o, '|');
    var all := AllFields(o, '|') + [Trailer(o, '|')];
    BuiltIsSerialised(o, '|');
    AllFieldsArePlain(o, '|');
    SerialisedIsPlain(all, '|');
    StartsWithBegin(all, '|');
    CollectsOneField(msg, msg[2..]);
    LoneField(Field(8, msg[2..]), m);
  }

  lemma StartsWithBegin(fields: seq<Field>, delim: char)
    requires fields != [] && fields[0].tag == 8
    ensures var s := Serialised(fields, delim); |s| >= 2 && s == "8=" + s[2..]
  {
    assert IntText(8) == "8";
  }
}
