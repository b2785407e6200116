/** The tokeniser and the repeating-group machine of src/fix_parser.cpp.  The parsed message is
    specified without the cursor: every scalar is the last value its tag was given before the
    trailer, and the entries are those the group machine opened. */
module FixParser {
  import opened FixMessages
  import opened FixText
  import opened TextSearch

  const TRAILER := 10

  datatype Field = Field(tag: int, value: string)

  // ----- tokens -----

  datatype Token = Exhausted | Token(field: Field, rest: string)

  function NextToken(cursor: string): Token {
    var eq := IndexOf(cursor, '=');
    if eq == |cursor| then Exhausted else
      var after := cursor[eq + 1..];
      var soh := IndexOf(after, SOH);
      Token(Field(ParsedInt(cursor[..eq]), after[..soh]), if soh == |after| then "" else after[soh + 1..])
  }

  function Tokens(cursor: string): seq<Field>
    decreases |cursor|
  {
    match NextToken(cursor)
    case Exhausted => []
    case Token(field, rest) => [field] + Tokens(rest)
  }

  function UpToTrailer(fields: seq<Field>): seq<Field> {
    if fields == [] || fields[0].tag == TRAILER then [] else [fields[0]] + UpToTrailer(fields[1..])
  }

  /** The fields a parse has taken into account once it has seen some and reads on from cursor. */
  function Collected(seen: seq<Field>, cursor: string): seq<Field>
    decreases |cursor|
  {
    match NextToken(cursor)
    case Exhausted => seen
    case Token(field, rest) => if field.tag == TRAILER then seen else Collected(seen + [field], rest)
  }

  lemma UpToTrailerOf(first: Field, others: seq<Field>)
    ensures UpToTrailer([first] + others) == if first.tag == TRAILER then [] else [first] + UpToTrailer(others)
  {
    assert ([first] + others)[1..] == others;
  }

  /** They are the tokens up to the trailer. */
  lemma {:induction false} CollectedIsTokens(seen: seq<Field>, cursor: string)
    ensures Collected(seen, cursor) == seen + UpToTrailer(Tokens(cursor))
    decreases |cursor|
  {
    match NextToken(cursor)
    case Exhausted =>
      assert Tokens(cursor) == [];
    case Token(field, rest) =>
      assert Tokens(cursor) == [field] + Tokens(rest);
      UpToTrailerOf(field, Tokens(rest));
      if field.tag == TRAILER {
        assert Collected(seen, cursor) == seen;
      } else {
        var later := UpToTrailer(Tokens(rest));
        assert Collected(seen, cursor) == seen + [field] + later by { CollectedIsTokens(seen + [field], rest); }
        assert seen + [field] + later == seen + ([field] + later);
      }
  }

  method NextField(cursor: string) returns (found: bool, tag: int, value: string, rest: string)
    ensures if found then NextToken(cursor) == Token(Field(tag, value), rest) && |rest| < |cursor|
            else NextToken(cursor) == Exhausted
  {
    found, tag, value, rest := false, 0, "", cursor;
    if cursor == "" { return; }
    var eq := IndexOf(cursor, '=');
    if eq == |cursor| { return; }
    tag := ParseInt(cursor[..eq]);
    rest := cursor[eq + 1..];
    var soh := IndexOf(rest, SOH);
    if soh == |rest| {
      value, rest := rest[..soh], "";
    } else {
      value, rest := rest[..soh], rest[soh + 1..];
    }
    found := true;
  }

  // ----- serialised fields -----

  function FieldText(f: Field, delim: char): string {
    IntText(f.tag) + "=" + f.value + [delim]
  }

  function Serialised(fields: seq<Field>, delim: char): string {
    if fields == [] then "" else FieldText(fields[0], delim) + Serialised(fields[1..], delim)
  }

  lemma {:induction false} SerialisedAppend(a: seq<Field>, b: seq<Field>, delim: char)
    ensures Serialised(a + b, delim) == Serialised(a, delim) + Serialised(b, delim)
  {
    if a == [] {
      assert a + b == b;
    } else {
      assert (a + b)[1..] == a[1..] + b;
      SerialisedAppend(a[1..], b, delim);
    }
  }

  predicate Plain(fields: seq<Field>) {
    forall f :: f in fields ==> SOH !in f.value
  }

  lemma TagHasNoEquals(n: int)
    ensures '=' !in IntText(n)
  {
    if n < 0 {
      assert forall i :: 1 <= i < |IntText(n)| ==> IsDigit(IntText(n)[i]);
    }
  }

  lemma TokenOf(tag: string, value: string, rest: string)
    requires '=' !in tag && SOH !in value
    ensures NextToken(tag + ['='] + (value + [SOH] + rest)) == Token(Field(ParsedInt(tag), value), rest)
  {
    var after := value + [SOH] + rest;
    var cursor := tag + ['='] + after;
    FirstIndex(tag, '=', after);
    FirstIndex(value, SOH, rest);
    assert cursor[..|tag|] == tag;
    assert cursor[|tag| + 1..] == after;
    assert after[..|value|] == value;
    assert after[|value| + 1..] == rest;
  }

  lemma FirstToken(f: Field, rest: string)
    requires SOH !in f.value
    ensures NextToken(FieldText(f, SOH) + rest) == Token(f, rest)
  {
    TagHasNoEquals(f.tag);
    TokenOf(IntText(f.tag), f.value, rest);
    IntRoundTrip(f.tag);
    assert FieldText(f, SOH) + rest == IntText(f.tag) + ['='] + (f.value + [SOH] + rest);
  }

  /** Tokenising a serialised field list gives it back, whatever SOH-free text the values hold
      ('=' included). */
  lemma {:induction false} TokensOfSerialised(fields: seq<Field>)
    requires Plain(fields)
    ensures Tokens(Serialised(fields, SOH)) == fields
  {
    if fields != [] {
      FirstToken(fields[0], Serialised(fields[1..], SOH));
      TokensOfSerialised(fields[1..]);
    }
  }

  lemma {:induction false} UpToItsTrailer(fields: seq<Field>, more: seq<Field>)
    requires forall f :: f in fields ==> f.tag != TRAILER
    requires more != [] ==> more[0].tag == TRAILER
    ensures UpToTrailer(fields + more) == fields
  {
    if fields == [] {
      assert fields + more == more;
    } else {
      assert (fields + more)[1..] == fields[1..] + more;
      UpToItsTrailer(fields[1..], more);
    }
  }

  // ----- what the fields declare -----

  function TypeOf(s: string): MsgType {
    if s == "W" then MarketDataSnapshot
    else if s == "X" then MarketDataIncremental
    else if s == "D" then NewOrderSingle
    else if s == "8" then ExecutionReport
    else Unknown
  }

  /** The value of the last field with this tag; empty if there is none. */
  function LastText(fields: seq<Field>, tag: int): string {
    if fields == [] then ""
    else
      var n := |fields| - 1;
      if fields[n].tag == tag then fields[n].value else LastText(fields[..n], tag)
  }

  /** The repeating group: its entries and the one being filled, -1 for none. */
  datatype Group = Group(entries: seq<MDEntry>, current: int)

  predicate InRange(g: Group) {
    -1 <= g.current < |g.entries| <= MAX_ENTRIES
  }

  /** Open a blank entry, or ignore it beyond the cap. */
  function Opened(g: Group): (r: Group)
    requires InRange(g)
    ensures InRange(r)
  {
    if |g.entries| < MAX_ENTRIES then Group(g.entries + [BLANK_ENTRY], |g.entries|) else g.(current := -1)
  }

  function Filled(g: Group, tag: int, value: string): (r: Group)
    requires InRange(g)
    ensures InRange(r) && r.current == g.current
  {
    if g.current < 0 then g
    else
      var e := g.entries[g.current];
      var e' := match tag
        case 269 => e.(entryType := ParsedInt(value))
        case 279 => e.(updateAction := ParsedInt(value))
        case 270 => e.(price := ParsedDouble(value))
        case 271 => e.(quantity := ParsedDouble(value))
        case _ => e;
      g.(entries := g.entries[g.current := e'])
  }

  /** Which tags delimit the group depends on the message type declared so far. */
  function Extended(g: Group, kind: MsgType, f: Field): (r: Group)
    requires InRange(g)
    ensures InRange(r)
  {
    if f.tag == 268 then Group([], -1)
    else if f.tag == 279 || (f.tag == 269 && (kind == MarketDataSnapshot || g.current < 0))
      then Filled(Opened(g), f.tag, f.value)
    else Filled(g, f.tag, f.value)
  }

  function GroupOf(fields: seq<Field>): (g: Group)
    ensures InRange(g)
  {
    if fields == [] then Group([], -1)
    else
      var before := fields[..|fields| - 1];
      Extended(GroupOf(before), TypeOf(LastText(before, 35)), fields[|fields| - 1])
  }

  datatype Content = Text(text: string) | Number(n: int) | Amount(x: real) | Kind(kind: MsgType) | Nothing

  /** How the text of a tag is read; Nothing for a tag that sets no scalar field. */
  function Reading(tag: int, text: string): Content {
    match tag
    case 35 => Kind(TypeOf(text))
    case 49 => Text(text)
    case 56 => Text(text)
    case 52 => Text(text)
    case 55 => Text(text)
    case 262 => Text(text)
    case 11 => Text(text)
    case 17 => Text(text)
    case 34 => Number(ParsedInt(text))
    case 39 => Number(ParsedInt(text))
    case 40 => Number(ParsedInt(text))
    case 54 => Number(ParsedInt(text))
    case 59 => Number(ParsedInt(text))
    case 31 => Amount(ParsedDouble(text))
    case 32 => Amount(ParsedDouble(text))
    case 38 => Amount(ParsedDouble(text))
    case 44 => Amount(ParsedDouble(text))
    case _ => Nothing
  }

  /** The message field a tag sets. */
  function Held(m: FixMessage, tag: int): Content {
    match tag
    case 35 => Kind(m.msgType)
    case 49 => Text(m.sender)
    case 56 => Text(m.target)
    case 52 => Text(m.sendTime)
    case 55 => Text(m.symbol)
    case 262 => Text(m.reqId)
    case 11 => Text(m.order.clOrdId)
    case 17 => Text(m.order.execId)
    case 34 => Number(m.seqNum)
    case 39 => Number(m.order.ordStatus)
    case 40 => Number(m.order.ordType)
    case 54 => Number(m.order.side)
    case 59 => Number(m.order.timeInForce)
    case 31 => Amount(m.order.lastPx)
    case 32 => Amount(m.order.lastQty)
    case 38 => Amount(m.order.orderQty)
    case 44 => Amount(m.order.orderPrice)
    case _ => Nothing
  }

  /** m is what the fields declare: every scalar is the last value of its tag, the entries are
      those of the group machine. */
  ghost predicate Declares(fields: seq<Field>, m: FixMessage) {
    (forall tag: int :: Held(m, tag) == Reading(tag, LastText(fields, tag))) && m.entries == GroupOf(fields).entries
  }

  /** The fields leave nothing of the message open. */
  lemma DeclaredOnce(fields: seq<Field>, m: FixMessage, m': FixMessage)
    requires Declares(fields, m) && Declares(fields, m')
    ensures m == m'
  {
    forall tag: int
      ensures Held(m, tag) == Held(m', tag)
    {
      assert Held(m, tag) == Reading(tag, LastText(fields, tag));
    }
    SameOrder(m, m');
    assert Held(m, 35) == Held(m', 35) && Held(m, 34) == Held(m', 34) && Held(m, 262) == Held(m', 262);
    assert Held(m, 49) == Held(m', 49) && Held(m, 56) == Held(m', 56);
    assert Held(m, 52) == Held(m', 52) && Held(m, 55) == Held(m', 55);
  }

  lemma SameOrder(m: FixMessage, m': FixMessage)
    requires forall tag: int :: Held(m, tag) == Held(m', tag)
    ensures m.order == m'.order
  {
    assert Held(m, 11) == Held(m', 11) && Held(m, 17) == Held(m', 17);
    assert Held(m, 54) == Held(m', 54) && Held(m, 40) == Held(m', 40) && Held(m, 39) == Held(m', 39);
    assert Held(m, 59) == Held(m', 59) && Held(m, 44) == Held(m', 44);
    assert Held(m, 38) == Held(m', 38) && Held(m, 32) == Held(m', 32) && Held(m, 31) == Held(m', 31);
  }

  // ----- the parser -----

  method ParseMsgType(sv: string) returns (t: MsgType)
    ensures t == TypeOf(sv)
  {
    if |sv| != 1 { return Unknown; }
    match sv[0] {
      case 'W' => t := MarketDataSnapshot;
      case 'X' => t := MarketDataIncremental;
      case 'D' => t := NewOrderSingle;
      case '8' => t := ExecutionReport;
      case _ => t := Unknown;
    }
  }

  /** Tags 268 to 279: reset, open or fill an entry. */
  method AssignEntryField(kind: MsgType, entries: seq<MDEntry>, current: int, tag: int, value: string)
    returns (entries': seq<MDEntry>, current': int)
    requires InRange(Group(entries, current))
    ensures Group(entries', current') == Extended(Group(entries, current), kind, Field(tag, value))
  {
    entries', current' := entries, current;
    match tag {
      case 268 =>
        entries', current' := [], -1;
      case 269 =>
        if kind == MarketDataSnapshot || current' < 0 {
          if |entries'| < MAX_ENTRIES {
            entries', current' := entries' + [BLANK_ENTRY], |entries'|;
          } else {
            current' := -1;
          }
        }
        if current' >= 0 {
          var n := ParseInt(value);
          entries' := entries'[current' := entries'[current'].(entryType := n)];
        }
      case 279 =>
        if |entries'| < MAX_ENTRIES {
          entries', current' := entries' + [BLANK_ENTRY], |entries'|;
        } else {
          current' := -1;
        }
        if current' >= 0 {
          var n := ParseInt(value);
          entries' := entries'[current' := entries'[current'].(updateAction := n)];
        }
      case 270 =>
        if current' >= 0 {
          var x := ParseDouble(value);
          entries' := entries'[current' := entries'[current'].(price := x)];
        }
      case 271 =>
        if current' >= 0 {
          var x := ParseDouble(value);
          entries' := entries'[current' := entries'[current'].(quantity := x)];
        }
      case _ =>
    }
  }

  /** Tags that set one scalar field: that field takes the value read, all others stay. */
  method AssignScalar(out: FixMessage, tag: int, value: string) returns (m: FixMessage)
    ensures m.entries == out.entries
    ensures forall t: int :: Held(m, t) == if t == tag then Reading(tag, value) else Held(out, t)
  {
    m := out;
    var o := out.order;
    match tag {
      case 35 => var t := ParseMsgType(value); m := m.(msgType := t);
      case 34 => var n := ParseInt(value); m := m.(seqNum := n);
      case 49 => m := m.(sender := value);
      case 56 => m := m.(target := value);
      case 52 => m := m.(sendTime := value);
      case 55 => m := m.(symbol := value);
      case 262 => m := m.(reqId := value);
      case 11 => m := m.(order := o.(clOrdId := value));
      case 17 => m := m.(order := o.(execId := value));
      case 31 => var x := ParseDouble(value); m := m.(order := o.(lastPx := x));
      case 32 => var x := ParseDouble(value); m := m.(order := o.(lastQty := x));
      case 38 => var x := ParseDouble(value); m := m.(order := o.(orderQty := x));
      case 39 => var n := ParseInt(value); m := m.(order := o.(ordStatus := n));
      case 40 => var n := ParseInt(value); m := m.(order := o.(ordType := n));
      case 44 => var x := ParseDouble(value); m := m.(order := o.(orderPrice := x));
      case 54 => var n := ParseInt(value); m := m.(order := o.(side := n));
      case 59 => var n := ParseInt(value); m := m.(order := o.(timeInForce := n));
      case _ =>
    }
  }

  /** The switch of the parse loop: one more field is declared. */
  method AssignField(out: FixMessage, current: int, tag: int, value: string, ghost seen: seq<Field>)
    returns (out': FixMessage, current': int)
    requires Declares(seen, out) && current == GroupOf(seen).current
    ensures Declares(seen + [Field(tag, value)], out') && current' == GroupOf(seen + [Field(tag, value)]).current
  {
    ghost var now := seen + [Field(tag, value)];
    assert now[..|seen|] == seen;
    assert forall t: int :: LastText(now, t) == if t == tag then value else LastText(seen, t);
    assert Held(out, 35) == Reading(35, LastText(seen, 35));
    var entries;
    entries, current' := AssignEntryField(out.msgType, out.entries, current, tag, value);
    var scalars := AssignScalar(out, tag, value);
    out' := scalars.(entries := entries);
    forall t: int
      ensures Held(out', t) == Reading(t, LastText(now, t))
    {
      assert Held(out', t) == Held(scalars, t);
      assert Held(out, t) == Reading(t, LastText(seen, t));
    }
  }

  lemma NothingDeclared()
    ensures Declares([], BLANK_MESSAGE) && GroupOf([]).current == -1
  {
    assert ParsedInt("") == 0;
    assert ParsedDouble("") == 0.0;
  }

  /** The cursor loop: it stops at the first field with tag 10 or when no field is left. */
  method Parse(msg: string) returns (ok: bool, out: FixMessage)
    ensures Declares(Collected([], msg), out)
    ensures ok <==> out.msgType != Unknown
    ensures |out.entries| <= MAX_ENTRIES
  {
    out := BLANK_MESSAGE;
    var cursor, current := msg, -1;
    ghost var seen: seq<Field> := [];
    NothingDeclared();
    while true
      invariant Collected([], msg) == Collected(seen, cursor)
      invariant Declares(seen, out) && current == GroupOf(seen).current
      decreases |cursor|
    {
      var found, tag, value, rest := NextField(cursor);
      if !found || tag == TRAILER {
        break;
      }
      out, current := AssignField(out, current, tag, value, seen);
      seen := seen + [Field(tag, value)];
      cursor := rest;
    }
    ok := out.msgType != Unknown;
  }
}
