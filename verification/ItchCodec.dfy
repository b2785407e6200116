/** The NASDAQ TotalView-ITCH 5.0 messages of tests/replay/itch_replay.cpp: readers, writers,
    synthetic messages, and the length-prefixed file. */
module ItchCodec {
  import opened Bytes

  // ----- fields -----

  function Ru16(p: seq<byte>, at: nat): nat
    requires at + 2 <= |p|
  {
    (p[at] as int) * 0x100 + (p[at + 1] as int)
  }

  function Ru32(p: seq<byte>, at: nat): nat
    requires at + 4 <= |p|
  {
    (p[at] as int) * 0x100_0000 + (p[at + 1] as int) * 0x1_0000 + (p[at + 2] as int) * 0x100 + (p[at + 3] as int)
  }

  function Ru48(p: seq<byte>, at: nat): nat
    requires at + 6 <= |p|
  {
    (p[at] as int) * 0x100_0000_0000 + (p[at + 1] as int) * 0x1_0000_0000 + (p[at + 2] as int) * 0x100_0000
    + (p[at + 3] as int) * 0x1_0000 + (p[at + 4] as int) * 0x100 + (p[at + 5] as int)
  }

  function Ru64(p: seq<byte>, at: nat): nat
    requires at + 8 <= |p|
  {
    (p[at] as int) * 0x100_0000_0000_0000 + (p[at + 1] as int) * 0x1_0000_0000_0000 + (p[at + 2] as int) * 0x100_0000_0000
    + (p[at + 3] as int) * 0x1_0000_0000 + (p[at + 4] as int) * 0x100_0000 + (p[at + 5] as int) * 0x1_0000 + (p[at + 6] as int) * 0x100 + (p[at + 7] as int)
  }

  lemma ValueStep(s: seq<byte>, b: byte)
    ensures Value(s + [b]) == 256 * Value(s) + b
  {
    assert (s + [b])[..|s|] == s;
  }

  /** The first k bytes from `at`, as one number. */
  lemma ValueGrows(p: seq<byte>, at: nat, k: nat)
    requires at + k < |p|
    ensures Value(p[at..at + k + 1]) == 256 * Value(p[at..at + k]) + p[at + k]
  {
    assert p[at..at + k + 1] == p[at..at + k] + [p[at + k]];
    ValueStep(p[at..at + k], p[at + k]);
  }

  /** The readers agree with the big-endian value of the bytes they cover. */
  lemma ReadersAreBigEndian(p: seq<byte>, at: nat)
    ensures at + 2 <= |p| ==> Ru16(p, at) == Value(p[at..at + 2])
    ensures at + 4 <= |p| ==> Ru32(p, at) == Value(p[at..at + 4])
    ensures at + 6 <= |p| ==> Ru48(p, at) == Value(p[at..at + 6])
    ensures at + 8 <= |p| ==> Ru64(p, at) == Value(p[at..at + 8])
  {
    if at <= |p| { assert Value(p[at..at]) == 0; }
    if at + 2 <= |p| { ValueGrows(p, at, 0); ValueGrows(p, at, 1); }
    if at + 4 <= |p| { ValueGrows(p, at, 2); ValueGrows(p, at, 3); }
    if at + 6 <= |p| { ValueGrows(p, at, 4); ValueGrows(p, at, 5); }
    if at + 8 <= |p| { ValueGrows(p, at, 6); ValueGrows(p, at, 7); }
  }

  /** What a write of n bytes at `at` leaves: those bytes, and everything else as it was. */
  ghost predicate FieldAt(p: seq<byte>, at: nat, field: seq<byte>) {
    at + |field| <= |p| && p[at..at + |field|] == field
  }

  ghost predicate Wrote(before: seq<byte>, after: seq<byte>, at: nat, field: seq<byte>) {
    && |after| == |before| && FieldAt(after, at, field)
    && (forall i :: 0 <= i < |before| && !(at <= i < at + |field|) ==> after[i] == before[i])
  }

  /** A write leaves the fields beside it alone. */
  lemma Kept(before: seq<byte>, after: seq<byte>, at: nat, field: seq<byte>, other: nat, kept: seq<byte>)
    requires Wrote(before, after, at, field) && FieldAt(before, other, kept)
    requires other + |kept| <= at || at + |field| <= other
    ensures FieldAt(after, other, kept)
  {
  }

  method Wu16(p: array<byte>, at: nat, v: nat)
    requires at + 2 <= p.Length
    modifies p
    ensures Wrote(old(p[..]), p[..], at, BigEndian(v, 2))
  {
    p[at] := v / 0x100 % 256;
    p[at + 1] := v % 256;
    Shifts2(v);
    assert p[at..at + 2] == BigEndian(v, 2);
  }

  method Wu32(p: array<byte>, at: nat, v: nat)
    requires at + 4 <= p.Length
    modifies p
    ensures Wrote(old(p[..]), p[..], at, BigEndian(v, 4))
  {
    p[at] := v / 0x100_0000 % 256;
    p[at + 1] := v / 0x1_0000 % 256;
    p[at + 2] := v / 0x100 % 256;
    p[at + 3] := v % 256;
    Shifts4(v);
    assert p[at..at + 4] == BigEndian(v, 4);
  }

  method Wu48(p: array<byte>, at: nat, v: nat)
    requires at + 6 <= p.Length
    modifies p
    ensures Wrote(old(p[..]), p[..], at, BigEndian(v, 6))
  {
    p[at] := v / 0x100_0000_0000 % 256;
    p[at + 1] := v / 0x1_0000_0000 % 256;
    p[at + 2] := v / 0x100_0000 % 256;
    p[at + 3] := v / 0x1_0000 % 256;
    p[at + 4] := v / 0x100 % 256;
    p[at + 5] := v % 256;
    Shifts6(v);
    assert p[at..at + 6] == BigEndian(v, 6);
  }

  method Wu64(p: array<byte>, at: nat, v: nat)
    requires at + 8 <= p.Length
    modifies p
    ensures Wrote(old(p[..]), p[..], at, BigEndian(v, 8))
  {
    p[at] := v / 0x100_0000_0000_0000 % 256;
    p[at + 1] := v / 0x1_0000_0000_0000 % 256;
    p[at + 2] := v / 0x100_0000_0000 % 256;
    p[at + 3] := v / 0x1_0000_0000 % 256;
    p[at + 4] := v / 0x100_0000 % 256;
    p[at + 5] := v / 0x1_0000 % 256;
    p[at + 6] := v / 0x100 % 256;
    p[at + 7] := v % 256;
    Shifts8(v);
    assert p[at..at + 8] == BigEndian(v, 8);
  }

  lemma Shifts2(v: nat)
    ensures BigEndian(v, 2) == [v / 0x100 % 256, v % 256]
  {
    assert BigEndian(v / 256, 1) == BigEndian(v / 256 / 256, 0) + [v / 256 % 256];
  }

  lemma Shifts4(v: nat)
    ensures BigEndian(v, 4) == [v / 0x100_0000 % 256, v / 0x1_0000 % 256, v / 0x100 % 256, v % 256]
  {
    var w := v / 0x1_0000;
    Shifts2(w);
    assert BigEndian(v, 4) == BigEndian(v / 256 / 256, 2) + [v / 256 % 256] + [v % 256] by {
      assert BigEndian(v / 256, 3) == BigEndian(v / 256 / 256, 2) + [v / 256 % 256];
    }
    assert v / 256 / 256 == w && w / 0x100 == v / 0x100_0000;
  }

  lemma Shifts6(v: nat)
    ensures BigEndian(v, 6) == [v / 0x100_0000_0000 % 256, v / 0x1_0000_0000 % 256, v / 0x100_0000 % 256,
                                v / 0x1_0000 % 256, v / 0x100 % 256, v % 256]
  {
    var w := v / 0x1_0000;
    Shifts4(w);
    assert BigEndian(v, 6) == BigEndian(v / 256 / 256, 4) + [v / 256 % 256] + [v % 256] by {
      assert BigEndian(v / 256, 5) == BigEndian(v / 256 / 256, 4) + [v / 256 % 256];
    }
    assert v / 256 / 256 == w;
    assert w / 0x100 == v / 0x100_0000 && w / 0x1_0000 == v / 0x1_0000_0000 && w / 0x100_0000 == v / 0x100_0000_0000;
  }

  lemma Shifts8(v: nat)
    ensures BigEndian(v, 8) == [v / 0x100_0000_0000_0000 % 256, v / 0x1_0000_0000_0000 % 256, v / 0x100_0000_0000 % 256,
                                v / 0x1_0000_0000 % 256, v / 0x100_0000 % 256, v / 0x1_0000 % 256, v / 0x100 % 256, v % 256]
  {
    var w := v / 0x1_0000;
    Shifts6(w);
    assert BigEndian(v, 8) == BigEndian(v / 256 / 256, 6) + [v / 256 % 256] + [v % 256] by {
      assert BigEndian(v / 256, 7) == BigEndian(v / 256 / 256, 6) + [v / 256 % 256];
    }
    assert v / 256 / 256 == w;
    assert w / 0x100 == v / 0x100_0000 && w / 0x1_0000 == v / 0x1_0000_0000 && w / 0x100_0000 == v / 0x100_0000_0000;
    assert w / 0x1_0000_0000 == v / 0x1_0000_0000_0000 && w / 0x100_0000_0000 == v / 0x100_0000_0000_0000;
  }

  // Reading back what was written gives the value modulo the width of the field, so exactly
  // the value when it fits.

  lemma ReadWritten16(p: seq<byte>, at: nat, v: nat)
    requires FieldAt(p, at, BigEndian(v, 2))
    ensures Ru16(p, at) == v % 0x1_0000
  {
    ReadersAreBigEndian(p, at);
    BigEndianValue(v, 2);
    Powers();
  }

  lemma ReadWritten32(p: seq<byte>, at: nat, v: nat)
    requires FieldAt(p, at, BigEndian(v, 4))
    ensures Ru32(p, at) == v % 0x1_0000_0000
  {
    ReadersAreBigEndian(p, at);
    BigEndianValue(v, 4);
    Powers();
  }

  lemma ReadWritten48(p: seq<byte>, at: nat, v: nat)
    requires FieldAt(p, at, BigEndian(v, 6))
    ensures Ru48(p, at) == v % 0x1_0000_0000_0000
  {
    ReadersAreBigEndian(p, at);
    BigEndianValue(v, 6);
    Powers();
  }

  lemma ReadWritten64(p: seq<byte>, at: nat, v: nat)
    requires FieldAt(p, at, BigEndian(v, 8))
    ensures Ru64(p, at) == v % 0x1_0000_0000_0000_0000
  {
    ReadersAreBigEndian(p, at);
    BigEndianValue(v, 8);
    Powers();
  }

  lemma ReadExact32(p: seq<byte>, at: nat, v: nat)
    requires v < U32 && FieldAt(p, at, BigEndian(v, 4))
    ensures Ru32(p, at) == v
  {
    ReadWritten32(p, at, v);
  }

  lemma ReadExact64(p: seq<byte>, at: nat, v: nat)
    requires v < U64 && FieldAt(p, at, BigEndian(v, 8))
    ensures Ru64(p, at) == v
  {
    ReadWritten64(p, at, v);
  }

  lemma Powers()
    ensures Pow256(2) == 0x1_0000 && Pow256(4) == 0x1_0000_0000
    ensures Pow256(6) == 0x1_0000_0000_0000 && Pow256(8) == 0x1_0000_0000_0000_0000
  {
    assert Pow256(1) == 256;
    assert Pow256(3) == 0x100_0000;
    assert Pow256(5) == 0x100_0000_0000;
    assert Pow256(7) == 0x100_0000_0000_0000;
  }

  // ----- stock names -----

  /** Trailing spaces removed. */
  function Trim(s: seq<byte>): (t: seq<byte>)
    ensures t <= s
    ensures t == [] || t[|t| - 1] != SPACE
    ensures forall i :: |t| <= i < |s| ==> s[i] == SPACE
  {
    if s != [] && s[|s| - 1] == SPACE then Trim(s[..|s| - 1]) else s
  }

  function ReadStock(p: seq<byte>, at: nat): seq<byte>
    requires at + 8 <= |p|
  {
    Trim(p[at..at + 8])
  }

  function Spaces(n: nat): seq<byte> {
    seq(n, i => SPACE)
  }

  lemma {:induction false} TrimPadded(s: seq<byte>, n: nat)
    ensures Trim(s + Spaces(n)) == Trim(s)
  {
    if n > 0 {
      var t := s + Spaces(n);
      assert t[..|t| - 1] == s + Spaces(n - 1);
      TrimPadded(s, n - 1);
    } else {
      assert s + Spaces(0) == s;
    }
  }

  function First8(s: seq<byte>): seq<byte> {
    if |s| <= 8 then s else s[..8]
  }

  // ----- messages -----

  datatype Message =
    | AddOrder(ts: nat, ref: nat, side: byte, shares: nat, stock: seq<byte>, price: nat)
    | OrderExecuted(ts: nat, ref: nat, shares: nat)
    | OrderCancel(ts: nat, ref: nat, shares: nat)
    | OrderDelete(ts: nat, ref: nat)
    | OrderReplace(ts: nat, oldRef: nat, newRef: nat, shares: nat, price: nat)

  datatype Decoded = Unrecognised | TooShort | Body(m: Message)

  /** The dispatch of `process_message` and the field reads of its handlers. */
  function Decode(buf: seq<byte>): Decoded {
    if buf == [] then Unrecognised
    else
      var ts := if |buf| >= 11 then Ru48(buf, 5) else 0;
      var kind := buf[0];
      if kind == 'A' as int || kind == 'F' as int then
        if |buf| < 36 then TooShort
        else Body(AddOrder(ts, Ru64(buf, 11), buf[19], Ru32(buf, 20), ReadStock(buf, 24), Ru32(buf, 32)))
      else if kind == 'E' as int || kind == 'C' as int then
        if |buf| < 31 then TooShort else Body(OrderExecuted(ts, Ru64(buf, 11), Ru32(buf, 19)))
      else if kind == 'X' as int then
        if |buf| < 23 then TooShort else Body(OrderCancel(ts, Ru64(buf, 11), Ru32(buf, 19)))
      else if kind == 'D' as int then
        if |buf| < 19 then TooShort else Body(OrderDelete(ts, Ru64(buf, 11)))
      else if kind == 'U' as int then
        if |buf| < 35 then TooShort
        else Body(OrderReplace(ts, Ru64(buf, 11), Ru64(buf, 19), Ru32(buf, 27), Ru32(buf, 31)))
      else Unrecognised
  }

  /** Which buffers decode, by their type byte and length. */
  lemma DecodesIff(buf: seq<byte>)
    ensures
      var (d, length, kind) := (Decode(buf), |buf|, if buf == [] then 0 else buf[0]);
      && (d.Body? && d.m.AddOrder? <==> (kind == 'A' as int || kind == 'F' as int) && length >= 36)
      && (d.Body? && d.m.OrderExecuted? <==> (kind == 'E' as int || kind == 'C' as int) && length >= 31)
      && (d.Body? && d.m.OrderCancel? <==> kind == 'X' as int && length >= 23)
      && (d.Body? && d.m.OrderDelete? <==> kind == 'D' as int && length >= 19)
      && (d.Body? && d.m.OrderReplace? <==> kind == 'U' as int && length >= 35)
      && (d.Unrecognised? <==> forall k :: 0 <= k < 7 ==> kind != "AFECXDU"[k] as int)
  {
    var seven := "AFECXDU";
    assert seven[0] == 'A' && seven[1] == 'F' && seven[2] == 'E' && seven[3] == 'C';
    assert seven[4] == 'X' && seven[5] == 'D' && seven[6] == 'U';
  }

  /** The MPID variant 'F' decodes as 'A' does, the price variant 'C' as 'E' does. */
  lemma VariantsDecode(buf: seq<byte>)
    requires buf != []
    ensures buf[0] == 'F' as int ==> Decode(buf) == Decode(buf[0 := 'A' as int])
    ensures buf[0] == 'C' as int ==> Decode(buf) == Decode(buf[0 := 'E' as int])
  {
    var a, e := buf[0 := 'A' as int], buf[0 := 'E' as int];
    if |buf| >= 32 { assert a[24..32] == buf[24..32]; }
  }

  const U32: nat := 0x1_0000_0000
  const U64: nat := 0x1_0000_0000_0000_0000
  const U48: nat := 0x1_0000_0000_0000

  lemma ReadersFit(p: seq<byte>, at: nat)
    ensures at + 4 <= |p| ==> Ru32(p, at) < U32
    ensures at + 6 <= |p| ==> Ru48(p, at) < U48
    ensures at + 8 <= |p| ==> Ru64(p, at) < U64
  {
    ReadersAreBigEndian(p, at);
    Powers();
    if at + 4 <= |p| { ValueBelow(p[at..at + 4]); }
    if at + 6 <= |p| { ValueBelow(p[at..at + 6]); }
    if at + 8 <= |p| { ValueBelow(p[at..at + 8]); }
  }

  /** The fields of a message are as wide as their place in it. */
  ghost predicate Fits(m: Message) {
    match m
    case AddOrder(ts, ref, _, shares, stock, price) =>
      ts < U48 && ref < U64 && shares < U32 && price < U32 && |stock| <= 8 && (stock == [] || stock[|stock| - 1] != SPACE)
    case OrderExecuted(ts, ref, shares) => ts < U48 && ref < U64 && shares < U32
    case OrderCancel(ts, ref, shares) => ts < U48 && ref < U64 && shares < U32
    case OrderDelete(ts, ref) => ts < U48 && ref < U64
    case OrderReplace(ts, oldRef, newRef, shares, price) =>
      ts < U48 && oldRef < U64 && newRef < U64 && shares < U32 && price < U32
  }

  /** Whatever the bytes, a decoded message can be built again: its fields are what the builders
      accept and give back unchanged. */
  lemma DecodedFits(buf: seq<byte>)
    ensures Decode(buf).Body? ==> Fits(Decode(buf).m)
  {
    ReadersFit(buf, 5);
    ReadersFit(buf, 11);
    ReadersFit(buf, 19);
    ReadersFit(buf, 20);
    ReadersFit(buf, 27);
    ReadersFit(buf, 31);
    ReadersFit(buf, 32);
  }

  /** A C string handed to a builder: its bytes before the terminator. */
  ghost predicate CString(s: seq<byte>) {
    forall i :: 0 <= i < |s| ==> s[i] != 0
  }

  /** The built bytes decode to the fields they were built from; the timestamp keeps its low
      48 bits, the stock its first 8 characters without trailing spaces. */
  method MakeAddOrder(ref: nat, side: byte, shares: nat, stock: seq<byte>, price: nat, ts: nat)
    returns (msg: seq<byte>)
    requires ref < U64 && shares < U32 && price < U32 && ts < U64 && CString(stock)
    ensures |msg| == 36
    ensures Decode(msg) == Body(AddOrder(ts % U48, ref, side, shares, Trim(First8(stock)), price))
    ensures |stock| <= 8 && (stock == [] || stock[|stock| - 1] != SPACE) ==> Trim(First8(stock)) == stock
  {
    var m := new byte[36](i => 0);
    m[0] := 'A' as int;
    m[19] := side;
    ghost var s0 := m[..];
    Wu48(m, 5, ts);
    ghost var s1 := m[..];
    Wu64(m, 11, ref);
    ghost var s2 := m[..];
    Kept(s1, s2, 11, BigEndian(ref, 8), 5, BigEndian(ts, 6));
    Wu32(m, 20, shares);
    ghost var s3 := m[..];
    Kept(s2, s3, 20, BigEndian(shares, 4), 5, BigEndian(ts, 6));
    Kept(s2, s3, 20, BigEndian(shares, 4), 11, BigEndian(ref, 8));
    WriteStock(m, stock);
    ghost var s4 := m[..];
    Kept(s3, s4, 24, Padded(stock), 5, BigEndian(ts, 6));
    Kept(s3, s4, 24, Padded(stock), 11, BigEndian(ref, 8));
    Kept(s3, s4, 24, Padded(stock), 20, BigEndian(shares, 4));
    Wu32(m, 32, price);
    msg := m[..];
    Kept(s4, msg, 32, BigEndian(price, 4), 5, BigEndian(ts, 6));
    Kept(s4, msg, 32, BigEndian(price, 4), 11, BigEndian(ref, 8));
    Kept(s4, msg, 32, BigEndian(price, 4), 20, BigEndian(shares, 4));
    Kept(s4, msg, 32, BigEndian(price, 4), 24, Padded(stock));
    AddOrderDecodes(msg, ref, side, shares, stock, price, ts);
  }

  lemma AddOrderDecodes(msg: seq<byte>, ref: nat, side: byte, shares: nat, stock: seq<byte>, price: nat, ts: nat)
    requires ref < U64 && shares < U32 && price < U32
    requires |msg| == 36 && msg[0] == 'A' as int && msg[19] == side
    requires FieldAt(msg, 5, BigEndian(ts, 6)) && FieldAt(msg, 11, BigEndian(ref, 8))
    requires FieldAt(msg, 20, BigEndian(shares, 4)) && FieldAt(msg, 24, Padded(stock)) && FieldAt(msg, 32, BigEndian(price, 4))
    ensures Decode(msg) == Body(AddOrder(ts % U48, ref, side, shares, Trim(First8(stock)), price))
  {
    StockReads(msg, stock);
    assert Ru48(msg, 5) == ts % U48 && Ru64(msg, 11) == ref by {
      ReadWritten48(msg, 5, ts);
      ReadExact64(msg, 11, ref);
    }
    assert Ru32(msg, 20) == shares && Ru32(msg, 32) == price by {
      ReadExact32(msg, 20, shares);
      ReadExact32(msg, 32, price);
    }
  }

  lemma StockReads(msg: seq<byte>, stock: seq<byte>)
    requires FieldAt(msg, 24, Padded(stock))
    ensures ReadStock(msg, 24) == Trim(First8(stock))
  {
    TrimPadded(First8(stock), 8 - |First8(stock)|);
  }

  function Padded(stock: seq<byte>): (s: seq<byte>)
    ensures |s| == 8
  {
    First8(stock) + Spaces(8 - |First8(stock)|)
  }

  /** memset with spaces, then memcpy of at most 8 characters. */
  method WriteStock(m: array<byte>, stock: seq<byte>)
    requires m.Length == 36
    modifies m
    ensures Wrote(old(m[..]), m[..], 24, Padded(stock))
  {
    for i := 24 to 32
      invariant forall j :: 0 <= j < 36 && !(24 <= j < 32) ==> m[j] == old(m[j])
      invariant forall j :: 24 <= j < i ==> m[j] == SPACE
    {
      m[i] := SPACE;
    }
    var slen := if |stock| < 8 then |stock| else 8;
    for i := 0 to slen
      invariant forall j :: 0 <= j < 36 && !(24 <= j < 32) ==> m[j] == old(m[j])
      invariant forall j :: 24 <= j < 32 ==> m[j] == if j - 24 < i then stock[j - 24] else SPACE
    {
      m[24 + i] := stock[i];
    }
    assert m[24..32] == Padded(stock);
  }

  method MakeOrderExecuted(ref: nat, shares: nat, ts: nat) returns (msg: seq<byte>)
    requires ref < U64 && shares < U32 && ts < U64
    ensures |msg| == 31 && Decode(msg) == Body(OrderExecuted(ts % U48, ref, shares))
  {
    msg := MakeReduction('E' as int, 31, ref, shares, ts);
  }

  method MakeOrderCancel(ref: nat, shares: nat, ts: nat) returns (msg: seq<byte>)
    requires ref < U64 && shares < U32 && ts < U64
    ensures |msg| == 23 && Decode(msg) == Body(OrderCancel(ts % U48, ref, shares))
  {
    msg := MakeReduction('X' as int, 23, ref, shares, ts);
  }

  /** The layout Order Executed and Order Cancel share: type, timestamp, reference, shares. */
  method MakeReduction(kind: byte, length: nat, ref: nat, shares: nat, ts: nat) returns (msg: seq<byte>)
    requires length >= 23 && ref < U64 && shares < U32 && ts < U64
    ensures |msg| == length && msg[0] == kind
    ensures Ru48(msg, 5) == ts % U48 && Ru64(msg, 11) == ref && Ru32(msg, 19) == shares
  {
    var m := new byte[length](i => 0);
    m[0] := kind;
    Wu48(m, 5, ts);
    ghost var s1 := m[..];
    Wu64(m, 11, ref);
    ghost var s2 := m[..];
    Kept(s1, s2, 11, BigEndian(ref, 8), 5, BigEndian(ts, 6));
    Wu32(m, 19, shares);
    msg := m[..];
    Kept(s2, msg, 19, BigEndian(shares, 4), 5, BigEndian(ts, 6));
    Kept(s2, msg, 19, BigEndian(shares, 4), 11, BigEndian(ref, 8));
    ReadWritten48(msg, 5, ts);
    ReadExact64(msg, 11, ref);
    ReadExact32(msg, 19, shares);
  }

  method MakeOrderDelete(ref: nat, ts: nat) returns (msg: seq<byte>)
    requires ref < U64 && ts < U64
    ensures |msg| == 19 && Decode(msg) == Body(OrderDelete(ts % U48, ref))
  {
    var m := new byte[19](i => 0);
    m[0] := 'D' as int;
    Wu48(m, 5, ts);
    ghost var s1 := m[..];
    Wu64(m, 11, ref);
    msg := m[..];
    Kept(s1, msg, 11, BigEndian(ref, 8), 5, BigEndian(ts, 6));
    ReadWritten48(msg, 5, ts);
    ReadExact64(msg, 11, ref);
  }

  method MakeOrderReplace(oldRef: nat, newRef: nat, shares: nat, price: nat, ts: nat) returns (msg: seq<byte>)
    requires oldRef < U64 && newRef < U64 && shares < U32 && price < U32 && ts < U64
    ensures |msg| == 35 && Decode(msg) == Body(OrderReplace(ts % U48, oldRef, newRef, shares, price))
  {
    var m := new byte[35](i => 0);
    m[0] := 'U' as int;
    Wu48(m, 5, ts);
    ghost var s1 := m[..];
    Wu64(m, 11, oldRef);
    ghost var s2 := m[..];
    Kept(s1, s2, 11, BigEndian(oldRef, 8), 5, BigEndian(ts, 6));
    Wu64(m, 19, newRef);
    ghost var s3 := m[..];
    Kept(s2, s3, 19, BigEndian(newRef, 8), 5, BigEndian(ts, 6));
    Kept(s2, s3, 19, BigEndian(newRef, 8), 11, BigEndian(oldRef, 8));
    Wu32(m, 27, shares);
    ghost var s4 := m[..];
    Kept(s3, s4, 27, BigEndian(shares, 4), 5, BigEndian(ts, 6));
    Kept(s3, s4, 27, BigEndian(shares, 4), 11, BigEndian(oldRef, 8));
    Kept(s3, s4, 27, BigEndian(shares, 4), 19, BigEndian(newRef, 8));
    Wu32(m, 31, price);
    msg := m[..];
    Kept(s4, msg, 31, BigEndian(price, 4), 5, BigEndian(ts, 6));
    Kept(s4, msg, 31, BigEndian(price, 4), 11, BigEndian(oldRef, 8));
    Kept(s4, msg, 31, BigEndian(price, 4), 19, BigEndian(newRef, 8));
    Kept(s4, msg, 31, BigEndian(price, 4), 27, BigEndian(shares, 4));
    OrderReplaceDecodes(msg, oldRef, newRef, shares, price, ts);
  }

  lemma OrderReplaceDecodes(msg: seq<byte>, oldRef: nat, newRef: nat, shares: nat, price: nat, ts: nat)
    requires oldRef < U64 && newRef < U64 && shares < U32 && price < U32
    requires |msg| == 35 && msg[0] == 'U' as int
    requires FieldAt(msg, 5, BigEndian(ts, 6)) && FieldAt(msg, 11, BigEndian(oldRef, 8)) && FieldAt(msg, 19, BigEndian(newRef, 8))
    requires FieldAt(msg, 27, BigEndian(shares, 4)) && FieldAt(msg, 31, BigEndian(price, 4))
    ensures Decode(msg) == Body(OrderReplace(ts % U48, oldRef, newRef, shares, price))
  {
    ReadWritten48(msg, 5, ts);
    ReadExact64(msg, 11, oldRef);
    ReadExact64(msg, 19, newRef);
    ReadExact32(msg, 27, shares);
    ReadExact32(msg, 31, price);
  }

  // ----- the replay file -----

  /** The messages `replay_file` hands on: length prefix, body, until a read falls short; empty
      messages are skipped. */
  function Frames(file: seq<byte>): seq<seq<byte>>
    decreases |file|
  {
    if |file| < 2 then []
    else
      var n := Ru16(file, 0);
      if n == 0 then Frames(file[2..])
      else if |file| < 2 + n then []
      else [file[2..2 + n]] + Frames(file[2 + n..])
  }

  function Framed(msgs: seq<seq<byte>>): seq<byte> {
    if msgs == [] then [] else BigEndian(|msgs[0]|, 2) + msgs[0] + Framed(msgs[1..])
  }

  ghost predicate Frameable(msgs: seq<seq<byte>>) {
    forall i :: 0 <= i < |msgs| ==> 0 < |msgs[i]| < 0x1_0000
  }

  /** A file of framed messages, whatever is cut off its end, yields a prefix of the messages;
      the whole file yields all of them. */
  lemma {:induction false} FramesOfFramed(msgs: seq<seq<byte>>, cut: nat)
    requires Frameable(msgs) && cut <= |Framed(msgs)|
    ensures Frames(Framed(msgs)[..cut]) <= msgs
    ensures cut == |Framed(msgs)| ==> Frames(Framed(msgs)[..cut]) == msgs
  {
    if msgs != [] && cut >= 2 {
      var m, rest := msgs[0], Framed(msgs[1..]);
      var head := BigEndian(|m|, 2);
      assert Ru16(head, 0) == |m| by {
        assert head[0..2] == head;
        ReadWritten16(head, 0, |m|);
      }
      FirstFrame(head, m, rest, cut);
      if cut >= 2 + |m| {
        FramesOfFramed(msgs[1..], cut - 2 - |m|);
        assert msgs == [m] + msgs[1..];
      }
    }
  }

  lemma FirstFrame(head: seq<byte>, m: seq<byte>, rest: seq<byte>, cut: nat)
    requires |head| == 2 && Ru16(head, 0) == |m| > 0 && 2 <= cut <= 2 + |m| + |rest|
    ensures Frames((head + m + rest)[..cut]) == if cut < 2 + |m| then [] else [m] + Frames(rest[..cut - 2 - |m|])
  {
    var file := (head + m + rest)[..cut];
    assert file[0] == head[0] && file[1] == head[1];
    if cut >= 2 + |m| {
      assert file[2..2 + |m|] == m;
      assert file[2 + |m|..] == rest[..cut - 2 - |m|];
    }
  }
}
