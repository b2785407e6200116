/** decode_chunked of src/questdb_data_source.cpp: HTTP chunked transfer coding, section 7.1 of
    RFC 9112.  The size of a chunk comes from the sender, so the loop's sums are taken modulo
    2^64, as the source takes them; a body is shorter than the longest std::string. */
module ChunkedDecoder {
  import opened Optional
  import opened TextSearch
  import opened Words

  const CRLF := "\r\n"
  const MAX_STRING: nat := 0x8000_0000_0000_0000

  // ----- searching and numbers -----

  predicate CrlfAt(s: string, i: nat) { i + 1 < |s| && s[i] == '\r' && s[i + 1] == '\n' }

  /** The first CRLF, |s| if there is none. */
  function FindCrlf(s: string): (i: nat)
    ensures i <= |s| && (i < |s| ==> CrlfAt(s, i))
  {
    if s == "" || CrlfAt(s, 0) then 0 else 1 + FindCrlf(s[1..])
  }

  ghost predicate NoCrlf(s: string) { forall i: nat :: !CrlfAt(s, i) }

  lemma {:induction false} FindsFirstCrlf(line: string, t: string)
    requires NoCrlf(line)
    ensures FindCrlf(line + CRLF + t) == |line|
  {
    var s := line + CRLF + t;
    if line != "" {
      assert s[1..] == line[1..] + CRLF + t;
      assert CrlfAt(s, 0) ==> CrlfAt(line, 0);
      forall i: nat
        ensures !CrlfAt(line[1..], i)
      {
        assert !CrlfAt(line, i + 1);
      }
      FindsFirstCrlf(line[1..], t);
    }
  }

  lemma {:induction false} FindsNoCrlf(s: string)
    requires NoCrlf(s)
    ensures FindCrlf(s) == |s|
  {
    var i := FindCrlf(s);
    assert !CrlfAt(s, i);
  }

  predicate IsHex(c: char) { '0' <= c <= '9' || 'a' <= c <= 'f' || 'A' <= c <= 'F' }

  function HexDigit(c: char): (d: nat)
    requires IsHex(c)
    ensures d < 16
  {
    if '0' <= c <= '9' then c as int - '0' as int
    else if 'a' <= c <= 'f' then c as int - 'a' as int + 10
    else c as int - 'A' as int + 10
  }

  /** The leading hexadecimal digits, accumulated. */
  function HexRun(s: string, acc: nat): nat {
    if s == "" || !IsHex(s[0]) then acc else HexRun(s[1..], acc * 16 + HexDigit(s[0]))
  }

  predicate IsSpace(c: char) { c == ' ' || 9 <= c as int <= 13 }

  function SkipSpaces(s: string): string {
    if s != "" && IsSpace(s[0]) then SkipSpaces(s[1..]) else s
  }

  /** The digits stoul reads in base 16: after spaces, a sign and a 0x prefix. */
  function Unprefixed(s: string): string {
    if |s| > 2 && s[0] == '0' && (s[1] == 'x' || s[1] == 'X') && IsHex(s[2]) then s[2..] else s
  }

  /** std::stoul in base 16; None is an exception (no digits, or out of range).  A minus sign
      negates modulo 2^64. */
  function Stoul(text: string): Option<nat> {
    var s := SkipSpaces(text);
    var negative := s != "" && s[0] == '-';
    var digits := Unprefixed(if s != "" && (s[0] == '-' || s[0] == '+') then s[1..] else s);
    if digits == "" || !IsHex(digits[0]) || HexRun(digits, 0) >= WORD then None
    else if negative && HexRun(digits, 0) > 0 then Some(WORD - HexRun(digits, 0))
    else Some(HexRun(digits, 0))
  }

  // ----- size lines as the loop meets them -----

  /** The size line of a chunk with data: where the data starts, and its size. */
  datatype Head = NoHead | Head(start: nat, size: nat)

  /** The size on a size line; an extension is ignored. */
  function SizeOf(line: string): (n: Option<nat>)
    ensures n.Some? ==> n.value < WORD
  {
    Stoul(line[..IndexOf(line, ';')])
  }

  function HeadOf(rest: string): (h: Head)
    ensures h.Head? ==> h.start <= |rest| && 0 < h.size < WORD
  {
    var nl := FindCrlf(rest);
    if nl == |rest| then NoHead
    else
      var size := SizeOf(rest[..nl]);
      if size.None? || size.value == 0 then NoHead else Head(nl + 2, size.value)
  }

  /** A way of reading size lines: the data starts within the text and a size is a 64-bit word. */
  type Reader = headOf: string -> Head | forall s: string :: headOf(s).Head? ==> headOf(s).start <= |s| && 0 < headOf(s).size < WORD
    ghost witness (s: string) => NoHead

  /** A stand-in for HeadOf, so that proofs about the loop need not look inside it. */
  ghost predicate IsHeadOf(headOf: Reader) {
    forall s: string {:trigger HeadOf(s)} :: headOf(s) == HeadOf(s)
  }

  method ReadHead(body: string, pos: nat, ghost headOf: Reader) returns (found: bool, start: nat, size: nat)
    requires pos <= |body| && IsHeadOf(headOf)
    ensures found ==> pos <= start <= |body| && headOf(body[pos..]) == Head(start - pos, size)
    ensures !found ==> headOf(body[pos..]) == NoHead
  {
    found, start, size := false, pos, 0;
    ghost var rest := body[pos..];
    assert headOf(rest) == HeadOf(rest);
    var nl := pos + FindCrlf(body[pos..]);
    if nl == |body| { return; }
    var line := body[pos..nl];
    assert line == rest[..nl - pos];
    var semi := IndexOf(line, ';');
    var parsed := Stoul(line[..semi]);
    if parsed.None? || parsed.value == 0 { return; }
    found, start, size := true, nl + 2, parsed.value;
  }

  // ----- the loop -----

  /** The loop, stopped or before its next turn. */
  datatype Loop = Stopped(result: string) | At(pos: nat, result: string)

  function Least(m: nat, n: nat): nat { if m < n then m else n }

  /** One turn of the source's loop: 64-bit sums, and an append that takes what there is. */
  function Turn(headOf: Reader, body: string, s: Loop): Loop {
    if s.Stopped? || s.pos >= |body| then Stopped(s.result)
    else
      match headOf(body[s.pos..])
      case NoHead => Stopped(s.result)
      case Head(offset, size) =>
        var start := s.pos + offset;
        if (start + size) % WORD > |body| then Stopped(s.result)
        else At((start + size + 2) % WORD, s.result + body[start..Least(start + size, |body|)])
  }

  function Turns(headOf: Reader, body: string, n: nat, s: Loop): Loop {
    if n == 0 then s else Turns(headOf, body, n - 1, Turn(headOf, body, s))
  }

  /** The turn that was meant: the same with sums that never wrap. */
  function IdealTurn(headOf: Reader, body: string, s: Loop): Loop {
    if s.Stopped? || s.pos >= |body| then Stopped(s.result)
    else
      match headOf(body[s.pos..])
      case NoHead => Stopped(s.result)
      case Head(offset, size) =>
        var start := s.pos + offset;
        if start + size > |body| then Stopped(s.result)
        else At(start + size + 2, s.result + body[start..start + size])
  }

  /** Ideal turns until the loop stops. */
  function Continued(headOf: Reader, body: string, pos: nat, result: string): string
    decreases |body| - pos
  {
    match IdealTurn(headOf, body, At(pos, result))
    case Stopped(r) => r
    case At(next, r) => Continued(headOf, body, next, r)
  }

  /** What a chunked body is meant to decode to. */
  function Decode(body: string): string { Continued(HeadOf, body, 0, "") }

  /** The size line at pos declares a chunk whose end is past 2^64. */
  predicate Wraps(headOf: Reader, body: string, pos: nat) {
    pos < |body| && headOf(body[pos..]).Head? && pos + headOf(body[pos..]).start + headOf(body[pos..]).size >= WORD
  }

  /** A turn is the one that was meant exactly unless its sum wraps. */
  lemma TurnIsIdealIff(headOf: Reader, body: string, pos: nat, result: string)
    requires |body| < MAX_STRING
    ensures Turn(headOf, body, At(pos, result)) == IdealTurn(headOf, body, At(pos, result)) <==> !Wraps(headOf, body, pos)
  {
    if pos < |body| && headOf(body[pos..]).Head? {
      var start, size := pos + headOf(body[pos..]).start, headOf(body[pos..]).size;
      assert start <= |body| && size < WORD;
      if start + size >= WORD {
        assert (start + size) % WORD == start + size - WORD;
      } else {
        assert (start + size) % WORD == start + size;
        assert start + size <= |body| ==> (start + size + 2) % WORD == start + size + 2;
      }
    }
  }

  /** When the sum wraps the bounds check passes: the rest of the body is appended and the
      position moves to at most one past the start of the data. */
  lemma WrappedTurn(headOf: Reader, body: string, pos: nat, result: string)
    requires |body| < MAX_STRING && Wraps(headOf, body, pos)
    ensures var h := headOf(body[pos..]);
            var start := pos + h.start;
            start <= |body| && start + h.size + 2 >= WORD &&
            Turn(headOf, body, At(pos, result)) == At(start + h.size + 2 - WORD, result + body[start..])
  {
    var start, size := pos + headOf(body[pos..]).start, headOf(body[pos..]).size;
    assert start <= |body| && size < WORD;
    assert (start + size) % WORD == start + size - WORD;
    assert (start + size + 2) % WORD == start + size + 2 - WORD;
  }

  // ----- when the loop decodes -----

  /** Whether the ideal loop meets a wrapping size line, and where the data after it starts. */
  datatype Meets = NoWrap | WrapAt(start: nat)

  function FirstWrap(headOf: Reader, body: string, pos: nat): Meets
    decreases |body| - pos
  {
    if Wraps(headOf, body, pos) then WrapAt(pos + headOf(body[pos..]).start)
    else
      match IdealTurn(headOf, body, At(pos, ""))
      case Stopped(_) => NoWrap
      case At(next, _) => FirstWrap(headOf, body, next)
  }

  lemma {:induction false} StoppedStays(headOf: Reader, body: string, n: nat, result: string)
    ensures Turns(headOf, body, n, Stopped(result)) == Stopped(result)
  {
    if n > 0 { StoppedStays(headOf, body, n - 1, result); }
  }

  /** Without a wrap the loop stops, after at most one turn more than there are characters, and
      has built what was meant. */
  lemma {:induction false} StopsWithoutWrap(headOf: Reader, body: string, n: nat, pos: nat, result: string)
    requires |body| < MAX_STRING && FirstWrap(headOf, body, pos).NoWrap? && n > 0 && n > |body| - pos
    ensures Turns(headOf, body, n, At(pos, result)) == Stopped(Continued(headOf, body, pos, result))
    decreases n
  {
    TurnIsIdealIff(headOf, body, pos, result);
    match IdealTurn(headOf, body, At(pos, result))
    case Stopped(r) => StoppedStays(headOf, body, n - 1, r);
    case At(next, r) => StopsWithoutWrap(headOf, body, n - 1, next, r);
  }

  lemma {:induction false} ResultOnlyGrows(headOf: Reader, body: string, n: nat, s: Loop)
    ensures |Turns(headOf, body, n, s).result| >= |s.result|
  {
    if n > 0 { ResultOnlyGrows(headOf, body, n - 1, Turn(headOf, body, s)); }
  }

  lemma WrapSpoilsAtOnce(headOf: Reader, body: string, n: nat, pos: nat, result: string)
    requires |body| < MAX_STRING && n > 0 && Wraps(headOf, body, pos) && pos + headOf(body[pos..]).start < |body|
    ensures Turns(headOf, body, n, At(pos, result)) != Stopped(Continued(headOf, body, pos, result))
  {
    WrappedTurn(headOf, body, pos, result);
    ResultOnlyGrows(headOf, body, n - 1, Turn(headOf, body, At(pos, result)));
  }

  /** After a wrap that leaves data behind the loop never stops with what was meant: it has
      appended what the ideal loop refuses. */
  lemma {:induction false} WrapSpoils(headOf: Reader, body: string, n: nat, pos: nat, result: string, at: nat)
    requires |body| < MAX_STRING && FirstWrap(headOf, body, pos) == WrapAt(at) && at < |body|
    ensures Turns(headOf, body, n, At(pos, result)) != Stopped(Continued(headOf, body, pos, result))
    decreases n
  {
    if n > 0 {
      TurnIsIdealIff(headOf, body, pos, result);
      if Wraps(headOf, body, pos) {
        WrapSpoilsAtOnce(headOf, body, n, pos, result);
      } else {
        var next := IdealTurn(headOf, body, At(pos, result));
        WrapSpoils(headOf, body, n - 1, next.pos, next.result, at);
      }
    }
  }

  /** Declared sizes that leave room for the body keep every sum below 2^64. */
  lemma {:induction false} SmallSizesNeverWrap(headOf: Reader, body: string, pos: nat)
    requires |body| < MAX_STRING
    requires forall p: nat :: p < |body| && headOf(body[p..]).Head? ==> headOf(body[p..]).size < WORD - |body|
    ensures FirstWrap(headOf, body, pos).NoWrap?
    decreases |body| - pos
  {
    match IdealTurn(headOf, body, At(pos, ""))
    case Stopped(_) =>
    case At(next, _) => SmallSizesNeverWrap(headOf, body, next);
  }

  ghost predicate LoopDecodes(headOf: Reader, body: string) {
    exists n: nat :: Turns(headOf, body, n, At(0, "")) == Stopped(Continued(headOf, body, 0, ""))
  }

  /** Exactly when the loop stops with the decoding that was meant: no size line it meets
      declares a chunk ending past 2^64.  A wrapping size line that ends the body appends
      nothing itself; WrapAtTheEnd shows what it can do. */
  lemma LoopDecodesIff(headOf: Reader, body: string)
    requires |body| < MAX_STRING
    requires FirstWrap(headOf, body, 0).WrapAt? ==> FirstWrap(headOf, body, 0).start < |body|
    ensures LoopDecodes(headOf, body) <==> FirstWrap(headOf, body, 0).NoWrap?
  {
    var w := FirstWrap(headOf, body, 0);
    if w.NoWrap? {
      StopsWithoutWrap(headOf, body, |body| + 1, 0, "");
    } else {
      forall n: nat
        ensures Turns(headOf, body, n, At(0, "")) != Stopped(Continued(headOf, body, 0, ""))
      {
        WrapSpoils(headOf, body, n, 0, "", w.start);
      }
    }
  }

  // ----- what size lines read as -----

  predicate HexText(s: string) { s != "" && forall i :: 0 <= i < |s| ==> IsHex(s[i]) }

  ghost predicate ExtensionText(s: string) { NoCrlf(s) && (s == "" || s[0] == ';') }

  lemma HexTextReads(s: string)
    requires HexText(s) && HexRun(s, 0) < WORD
    ensures Stoul(s) == Some(HexRun(s, 0))
  {
    assert IsHex(s[0]) && (|s| > 1 ==> IsHex(s[1]));
    assert SkipSpaces(s) == s && Unprefixed(s) == s;
  }

  lemma LineHasNoCrlf(size: string, extension: string)
    requires HexText(size) && ExtensionText(extension)
    ensures NoCrlf(size + extension)
  {
    forall i: nat
      ensures !CrlfAt(size + extension, i)
    {
      if i < |size| {
        assert (size + extension)[i] == size[i] && IsHex(size[i]);
      } else {
        assert !CrlfAt(extension, i - |size|);
      }
    }
  }

  lemma SizeEndsAtExtension(size: string, extension: string)
    requires ';' !in size && (extension == "" || extension[0] == ';')
    ensures IndexOf(size + extension, ';') == |size|
  {
    if extension == "" {
      assert size + extension == size;
    } else {
      assert [';'] + extension[1..] == extension;
      assert size + [';'] + extension[1..] == size + ([';'] + extension[1..]);
      FirstIndex(size, ';', extension[1..]);
    }
  }

  lemma HexHasNoSemicolon(size: string)
    requires HexText(size)
    ensures ';' !in size
  {
    assert !IsHex(';');
  }

  lemma SizeLineReads(size: string, extension: string, t: string)
    requires HexText(size) && ExtensionText(extension) && HexRun(size, 0) < WORD
    ensures var n := HexRun(size, 0);
            HeadOf(size + extension + CRLF + t) == if n == 0 then NoHead else Head(|size| + |extension| + 2, n)
  {
    var line := size + extension;
    var rest := line + CRLF + t;
    LineHasNoCrlf(size, extension);
    HexHasNoSemicolon(size);
    SizeEndsAtExtension(size, extension);
    FindsFirstCrlf(line, t);
    assert rest[..|line|] == line;
    assert line[..|size|] == size;
    HexTextReads(size);
  }

  lemma CutLineHasNoCrlf(line: string, k: nat)
    requires NoCrlf(line) && k < |line| + 2
    ensures NoCrlf((line + CRLF)[..k])
  {
    var cut := (line + CRLF)[..k];
    forall i: nat
      ensures !CrlfAt(cut, i)
    {
      assert CrlfAt(cut, i) ==> i + 1 < k && CrlfAt(line, i);
    }
  }

  lemma CutSizeLineReads(size: string, extension: string, k: nat)
    requires HexText(size) && ExtensionText(extension) && k < |size| + |extension| + 2
    ensures HeadOf((size + extension + CRLF)[..k]) == NoHead
  {
    LineHasNoCrlf(size, extension);
    CutLineHasNoCrlf(size + extension, k);
    FindsNoCrlf((size + extension + CRLF)[..k]);
  }

  // ----- wrapping bodies -----

  function Repeated(s: string, n: nat): string { if n == 0 then "" else s + Repeated(s, n - 1) }

  lemma OneMore(result: string, rest: string, n: nat)
    requires n > 0
    ensures (result + rest) + Repeated(rest, n - 1) == result + Repeated(rest, n)
  {
    assert (result + rest) + Repeated(rest, n - 1) == result + (rest + Repeated(rest, n - 1));
  }

  lemma {:induction false} Spins(headOf: Reader, body: string, pos: nat, rest: string, n: nat, result: string)
    requires forall r: string :: Turn(headOf, body, At(pos, r)) == At(pos, r + rest)
    ensures Turns(headOf, body, n, At(pos, result)) == At(pos, result + Repeated(rest, n))
  {
    if n == 0 {
      assert result + "" == result;
    } else {
      Spins(headOf, body, pos, rest, n - 1, result + rest);
      OneMore(result, rest, n);
    }
  }

  /** A size line that declares 2^64 less its own length and four brings the loop back to
      itself, wherever past the first two characters it is met: the loop never stops, and
      appends the rest of the body again with every turn. */
  lemma LoopsOnItself(headOf: Reader, body: string, pos: nat, n: nat, result: string)
    requires |body| < MAX_STRING && 2 <= pos < |body| && headOf(body[pos..]).Head?
    requires headOf(body[pos..]).start + headOf(body[pos..]).size + 2 == WORD
    ensures var start := pos + headOf(body[pos..]).start;
            start <= |body| && Turns(headOf, body, n, At(pos, result)) == At(pos, result + Repeated(body[start..], n))
  {
    var start := pos + headOf(body[pos..]).start;
    assert start <= |body|;
    forall r: string
      ensures Turn(headOf, body, At(pos, r)) == At(pos, r + body[start..])
    {
      LoopsOnce(headOf, body, pos, r);
    }
    Spins(headOf, body, pos, body[start..], n, result);
  }

  lemma LoopsOnce(headOf: Reader, body: string, pos: nat, result: string)
    requires |body| < MAX_STRING && 2 <= pos < |body| && headOf(body[pos..]).Head?
    requires headOf(body[pos..]).start + headOf(body[pos..]).size + 2 == WORD
    ensures var start := pos + headOf(body[pos..]).start;
            start <= |body| && Turn(headOf, body, At(pos, result)) == At(pos, result + body[start..])
  {
    var start, size := pos + headOf(body[pos..]).start, headOf(body[pos..]).size;
    assert start <= |body|;
    assert start + size + 2 == pos + WORD;
    WrappedTurn(headOf, body, pos, result);
  }

  lemma LastByte(last: string, acc: nat)
    requires |last| == 2 && IsHex(last[0]) && IsHex(last[1])
    ensures HexRun(last, acc) == acc * 256 + 16 * HexDigit(last[0]) + HexDigit(last[1])
  {
    assert last[1..][1..] == "" && last[1..][0] == last[1];
    assert HexRun(last[1..], acc * 16 + HexDigit(last[0])) == (acc * 16 + HexDigit(last[0])) * 16 + HexDigit(last[1]);
  }

  lemma FullBytes(rest: string, acc: nat)
    ensures HexRun("ff" + rest, acc) == HexRun(rest, acc * 256 + 255)
  {
    assert ("ff" + rest)[1..] == "f" + rest;
    assert ("f" + rest)[1..] == rest;
  }

  function FullText(n: nat): string { if n == 0 then "" else "ff" + FullText(n - 1) }

  lemma {:induction false} FullTextReads(n: nat, last: string, acc: nat)
    requires HexText(last)
    ensures HexText(FullText(n) + last) && |FullText(n)| == 2 * n
    ensures n >= 1 ==> HexRun(FullText(n) + last, acc) == HexRun(FullText(n - 1) + last, acc * 256 + 255)
    ensures n == 0 ==> HexRun(FullText(n) + last, acc) == HexRun(last, acc)
  {
    if n == 0 {
      assert "" + last == last;
    } else {
      FullTextReads(n - 1, last, acc);
      FullBytes(FullText(n - 1) + last, acc);
      assert FullText(n) + last == "ff" + (FullText(n - 1) + last);
    }
  }

  /** Sixteen hexadecimal digits, fourteen of them f. */
  function TopText(last: string): string { FullText(7) + last }

  lemma TopTextReads(last: string)
    requires |last| == 2 && IsHex(last[0]) && IsHex(last[1])
    ensures HexText(TopText(last)) && |TopText(last)| == 16
    ensures HexRun(TopText(last), 0) == WORD - 256 + 16 * HexDigit(last[0]) + HexDigit(last[1])
  {
    FullTextReads(7, last, 0);
    FullTextReads(6, last, 0xff);
    FullTextReads(5, last, 0xffff);
    FullTextReads(4, last, 0xff_ffff);
    FullTextReads(3, last, 0xffff_ffff);
    FullTextReads(2, last, 0xff_ffff_ffff);
    FullTextReads(1, last, 0xffff_ffff_ffff);
    FullTextReads(0, last, 0xff_ffff_ffff_ffff);
    LastByte(last, 0xff_ffff_ffff_ffff);
  }

  /** A chunk of one character, then the size line ffffffffffffffec, then some text. */
  function LoopingBody(text: string): string { "1" + CRLF + "X" + CRLF + (TopText("ec") + CRLF + text) }

  lemma LoopingShape(line: string, text: string)
    requires |line| == 16
    ensures var tail := line + CRLF + text;
            var body := "1" + CRLF + "X" + CRLF + tail;
            |body| == 24 + |text| && body[3..4] == "X" && body[6..] == tail && body[24..] == text
  {
    var tail := line + CRLF + text;
    var body := "1" + CRLF + "X" + CRLF + tail;
    assert body[24..] == tail[18..];
  }

  lemma OneReads(t: string)
    ensures HeadOf("1" + CRLF + "X" + CRLF + t) == Head(3, 1)
  {
    assert HexRun("1", 0) == 1;
    SizeLineReads("1", "", "X" + CRLF + t);
    assert "1" + CRLF + "X" + CRLF + t == "1" + "" + CRLF + ("X" + CRLF + t);
  }

  lemma TopLineReads(last: string, text: string)
    requires |last| == 2 && IsHex(last[0]) && IsHex(last[1])
    ensures HeadOf(TopText(last) + CRLF + text) == Head(18, WORD - 256 + 16 * HexDigit(last[0]) + HexDigit(last[1]))
  {
    TopTextReads(last);
    SizeLineReads(TopText(last), "", text);
    assert TopText(last) + "" == TopText(last);
  }

  lemma LoopingBodyReads(text: string)
    ensures |LoopingBody(text)| == 24 + |text|
    ensures HeadOf(LoopingBody(text)) == Head(3, 1) && HeadOf(LoopingBody(text)[6..]) == Head(18, WORD - 20)
    ensures LoopingBody(text)[3..4] == "X" && LoopingBody(text)[24..] == text
  {
    assert |TopText("ec")| == 16 by { TopTextReads("ec"); }
    LoopingShape(TopText("ec"), text);
    OneReads(TopText("ec") + CRLF + text);
    TopLineReads("ec", text);
  }

  lemma LoopingTurns(headOf: Reader, body: string, text: string, n: nat)
    requires |body| == 24 + |text| < MAX_STRING && body[3..4] == "X" && body[24..] == text
    requires headOf(body) == Head(3, 1) && headOf(body[6..]) == Head(18, WORD - 20)
    ensures Turns(headOf, body, n + 1, At(0, "")) == At(6, "X" + Repeated(text, n))
    ensures Continued(headOf, body, 0, "") == "X"
  {
    assert body[0..] == body && "" + "X" == "X";
    assert Turn(headOf, body, At(0, "")) == At(6, "X");
    LoopsOnItself(headOf, body, 6, n, "X");
    assert IdealTurn(headOf, body, At(0, "")) == At(6, "X");
    assert IdealTurn(headOf, body, At(6, "X")) == Stopped("X");
  }

  /** The loop can run forever: on this body, 25 characters long if the text is one, it comes
      back to the same size line after every turn and appends the text once more, where "X" was
      meant. */
  lemma LoopRunsForever(headOf: Reader, text: string, n: nat)
    requires IsHeadOf(headOf) && 24 + |text| < MAX_STRING
    ensures Turns(headOf, LoopingBody(text), n + 1, At(0, "")) == At(6, "X" + Repeated(text, n))
    ensures Continued(headOf, LoopingBody(text), 0, "") == "X"
  {
    var body := LoopingBody(text);
    assert |body| == 24 + |text| && body[3..4] == "X" && body[24..] == text && headOf(body) == Head(3, 1) &&
           headOf(body[6..]) == Head(18, WORD - 20) by { LoopingBodyReads(text); }
    LoopingTurns(headOf, body, text, n);
  }

  lemma StopsPastTheEnd(headOf: Reader, body: string)
    requires |body| == 18 && headOf(body) == Head(18, WORD - 1)
    ensures Turns(headOf, body, 2, At(0, "")) == Stopped("") == Stopped(Continued(headOf, body, 0, ""))
    ensures FirstWrap(headOf, body, 0) == WrapAt(18)
  {
    assert body[0..] == body && body[18..18] == "";
    assert Turn(headOf, body, At(0, "")) == At(19, "");
    assert Turns(headOf, body, 1, At(19, "")) == Turns(headOf, body, 0, Stopped(""));
  }

  /** A wrapping size line at the very end of a body can do either: here the loop stops with
      the decoding that was meant, and on LoopingBody("") it never stops. */
  lemma WrapAtTheEnd(headOf: Reader)
    requires IsHeadOf(headOf)
    ensures var body := TopText("ff") + CRLF;
            Turns(headOf, body, 2, At(0, "")) == Stopped(Continued(headOf, body, 0, "")) &&
            FirstWrap(headOf, body, 0) == WrapAt(|body|)
  {
    var body := TopText("ff") + CRLF;
    assert |body| == 18 && headOf(body) == Head(18, WORD - 1) by {
      TopTextReads("ff");
      TopLineReads("ff", "");
      assert body + "" == body;
      assert headOf(body) == HeadOf(body);
    }
    StopsPastTheEnd(headOf, body);
  }

  // ----- in place -----

  /** The loop, performed for a given number of turns. */
  method DecodeChunked(body: string, turns: nat) returns (stopped: bool, pos: nat, result: string)
    ensures Turns(HeadOf, body, turns, At(0, "")) == if stopped then Stopped(result) else At(pos, result)
  {
    stopped, pos, result := AppendChunks(body, turns, HeadOf);
  }

  method TakeTurn(body: string, pos: nat, result: string, ghost headOf: Reader)
    returns (stopped: bool, pos': nat, result': string)
    requires IsHeadOf(headOf)
    ensures Turn(headOf, body, At(pos, result)) == if stopped then Stopped(result') else At(pos', result')
  {
    stopped, pos', result' := true, pos, result;
    if pos >= |body| { return; }
    var found, start, size := ReadHead(body, pos, headOf);
    if !found || (start + size) % WORD > |body| { return; }
    result' := result + body[start..Least(start + size, |body|)];
    stopped, pos' := false, (start + size + 2) % WORD;
  }

  method AppendChunks(body: string, turns: nat, ghost headOf: Reader) returns (stopped: bool, pos: nat, result: string)
    requires IsHeadOf(headOf)
    ensures Turns(headOf, body, turns, At(0, "")) == if stopped then Stopped(result) else At(pos, result)
  {
    stopped, pos, result := false, 0, "";
    var left := turns;
    while left > 0 && !stopped
      invariant Turns(headOf, body, left, if stopped then Stopped(result) else At(pos, result)) ==
                Turns(headOf, body, turns, At(0, ""))
    {
      stopped, pos, result := TakeTurn(body, pos, result, headOf);
      left := left - 1;
    }
    if stopped { StoppedStays(headOf, body, left, result); }
  }
}
