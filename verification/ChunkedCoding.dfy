/** The chunked coding, section 7.1 of RFC 9112, and what decode_chunked makes of it and of its
    truncations. */
module ChunkedCoding {
  import opened ChunkedDecoder

  // ----- the coding -----

  /** A chunk as section 7.1 of RFC 9112 writes it: any hexadecimal spelling of the size, an
      optional extension, and data in which CRLF may occur. */
  datatype Chunk = Chunk(sizeText: string, extension: string, data: string)

  function Line(c: Chunk): string { c.sizeText + c.extension }

  ghost predicate WellFormed(c: Chunk) {
    HexText(c.sizeText) && ExtensionText(c.extension) && HexRun(c.sizeText, 0) == |c.data| && 0 < |c.data| < MAX_STRING
  }

  function ChunkText(c: Chunk): string { Line(c) + CRLF + c.data + CRLF }

  function Encoded(chunks: seq<Chunk>): string {
    if chunks == [] then "" else ChunkText(chunks[0]) + Encoded(chunks[1..])
  }

  function Data(chunks: seq<Chunk>): string {
    if chunks == [] then "" else chunks[0].data + Data(chunks[1..])
  }

  /** How many chunks have all their data within the first m characters. */
  function Whole(chunks: seq<Chunk>, m: nat): (n: nat)
    ensures n <= |chunks|
  {
    if chunks == [] || m < |Line(chunks[0])| + 2 + |chunks[0].data| then 0
    else if m < |ChunkText(chunks[0])| then 1
    else 1 + Whole(chunks[1..], m - |ChunkText(chunks[0])|)
  }

  /** The decoder reads a size line whatever follows it, and no part of one. */
  ghost predicate ReadsLine(headOf: Reader, line: string, size: nat) {
    && (forall t: string :: headOf(line + CRLF + t) == Head(|line| + 2, size))
    && forall k :: 0 <= k < |line| + 2 ==> headOf((line + CRLF)[..k]).NoHead?
  }

  /** No beginning of the text offers a chunk. */
  ghost predicate Ends(headOf: Reader, tail: string) {
    forall k :: 0 <= k <= |tail| ==> headOf(tail[..k]).NoHead?
  }

  function Framed(line: string, data: string, later: string): string { line + CRLF + data + CRLF + later }

  lemma MiddleOf(a: string, b: string, c: string, m: nat)
    requires |a| + |b| <= m <= |a| + |b| + |c|
    ensures (a + b + c)[..m][|a|..|a| + |b|] == b && (a + b + c)[..m][|a| + |b|..] == c[..m - |a| - |b|]
  {
  }

  /** The first m characters of a chunk with text behind it. */
  lemma CutShape(line: string, data: string, later: string, m: nat)
    requires m <= |Framed(line, data, later)|
    ensures var cut, start := Framed(line, data, later)[..m], |line| + 2;
            && (m < start ==> cut == (line + CRLF)[..m])
            && (m >= start ==> cut == line + CRLF + cut[start..])
            && (m >= start + |data| ==> cut[start..start + |data|] == data)
            && (m >= start + |data| + 2 ==> cut[start + |data| + 2..] == later[..m - start - |data| - 2])
  {
    var start := |line| + 2;
    if m >= start + |data| {
      assert Framed(line, data, later) == (line + CRLF) + data + (CRLF + later);
      MiddleOf(line + CRLF, data, CRLF + later, m);
    }
    if m >= start + |data| + 2 {
      assert Framed(line, data, later) == (line + CRLF + data) + CRLF + later;
      MiddleOf(line + CRLF + data, CRLF, later, m);
    }
  }

  /** One turn over a chunk of which the body holds the first m characters. */
  lemma ChunkTurn(headOf: Reader, body: string, pos: nat, result: string, line: string, data: string, later: string, m: nat)
    requires |body| < MAX_STRING && pos <= |body| && 0 < |data| < MAX_STRING && ReadsLine(headOf, line, |data|)
    requires m <= |Framed(line, data, later)| && body[pos..] == Framed(line, data, later)[..m]
    ensures !Wraps(headOf, body, pos)
    ensures IdealTurn(headOf, body, At(pos, result)) ==
            if m < |line| + 2 + |data| then Stopped(result) else At(pos + |line| + |data| + 4, result + data)
  {
    var start := |line| + 2;
    CutShape(line, data, later, m);
    assert m >= start ==> headOf(body[pos..]) == Head(start, |data|);
    if m >= start + |data| {
      assert body[pos + start..pos + start + |data|] == body[pos..][start..start + |data|];
    }
  }

  /** From pos on no sum wraps, and the loop adds exactly the given data. */
  ghost predicate Yields(headOf: Reader, body: string, pos: nat, data: string) {
    FirstWrap(headOf, body, pos).NoWrap? && forall r: string :: Continued(headOf, body, pos, r) == r + data
  }

  lemma YieldsNothing(headOf: Reader, body: string, pos: nat)
    requires !Wraps(headOf, body, pos) && forall r: string :: IdealTurn(headOf, body, At(pos, r)) == Stopped(r)
    ensures Yields(headOf, body, pos, "")
  {
    assert IdealTurn(headOf, body, At(pos, "")) == Stopped("");
    forall r: string
      ensures Continued(headOf, body, pos, r) == r + ""
    {
      assert IdealTurn(headOf, body, At(pos, r)) == Stopped(r);
      assert r + "" == r;
    }
  }

  lemma YieldsMore(headOf: Reader, body: string, pos: nat, next: nat, data: string, more: string)
    requires pos < next && !Wraps(headOf, body, pos) && Yields(headOf, body, next, more)
    requires forall r: string :: IdealTurn(headOf, body, At(pos, r)) == At(next, r + data)
    ensures Yields(headOf, body, pos, data + more)
  {
    assert IdealTurn(headOf, body, At(pos, "")) == At(next, "" + data);
    forall r: string
      ensures Continued(headOf, body, pos, r) == r + (data + more)
    {
      assert IdealTurn(headOf, body, At(pos, r)) == At(next, r + data);
      assert Continued(headOf, body, next, r + data) == (r + data) + more;
      assert (r + data) + more == r + (data + more);
    }
  }

  lemma YieldsChunk(headOf: Reader, body: string, pos: nat, line: string, data: string, later: string, m: nat, more: string)
    requires |body| < MAX_STRING && pos <= |body| && 0 < |data| < MAX_STRING && ReadsLine(headOf, line, |data|)
    requires m <= |Framed(line, data, later)| && body[pos..] == Framed(line, data, later)[..m]
    requires m >= |line| + 2 + |data| && Yields(headOf, body, pos + |line| + |data| + 4, more)
    ensures Yields(headOf, body, pos, data + more)
  {
    var next := pos + |line| + |data| + 4;
    forall r: string
      ensures IdealTurn(headOf, body, At(pos, r)) == At(next, r + data)
    {
      ChunkTurn(headOf, body, pos, r, line, data, later, m);
    }
    ChunkTurn(headOf, body, pos, "", line, data, later, m);
    YieldsMore(headOf, body, pos, next, data, more);
  }

  lemma YieldsNoChunk(headOf: Reader, body: string, pos: nat, line: string, data: string, later: string, m: nat)
    requires |body| < MAX_STRING && pos <= |body| && 0 < |data| < MAX_STRING && ReadsLine(headOf, line, |data|)
    requires m <= |Framed(line, data, later)| && body[pos..] == Framed(line, data, later)[..m]
    requires m < |line| + 2 + |data|
    ensures Yields(headOf, body, pos, "")
  {
    forall r: string
      ensures IdealTurn(headOf, body, At(pos, r)) == Stopped(r)
    {
      ChunkTurn(headOf, body, pos, r, line, data, later, m);
    }
    ChunkTurn(headOf, body, pos, "", line, data, later, m);
    YieldsNothing(headOf, body, pos);
  }

  /** The body holds, from pos on, the first m characters of the chunks and the tail. */
  predicate HoldsFrom(body: string, pos: nat, chunks: seq<Chunk>, tail: string, m: nat) {
    pos <= |body| < MAX_STRING && m <= |Encoded(chunks) + tail| && body[pos..] == (Encoded(chunks) + tail)[..m]
  }

  ghost predicate Readable(headOf: Reader, chunks: seq<Chunk>) {
    forall c :: c in chunks ==> 0 < |c.data| < MAX_STRING && ReadsLine(headOf, Line(c), |c.data|)
  }

  lemma FirstChunk(chunks: seq<Chunk>, tail: string)
    requires chunks != []
    ensures Encoded(chunks) + tail == Framed(Line(chunks[0]), chunks[0].data, Encoded(chunks[1..]) + tail)
  {
  }

  lemma HoldsRest(body: string, pos: nat, chunks: seq<Chunk>, tail: string, m: nat)
    requires chunks != [] && HoldsFrom(body, pos, chunks, tail, m) && m >= |ChunkText(chunks[0])|
    ensures HoldsFrom(body, pos + |ChunkText(chunks[0])|, chunks[1..], tail, m - |ChunkText(chunks[0])|)
  {
    var n := |ChunkText(chunks[0])|;
    FirstChunk(chunks, tail);
    CutShape(Line(chunks[0]), chunks[0].data, Encoded(chunks[1..]) + tail, m);
    assert body[pos + n..] == body[pos..][n..];
  }

  /** The first chunk is there whole. */
  lemma YieldsFirst(headOf: Reader, body: string, pos: nat, chunks: seq<Chunk>, tail: string, m: nat, more: string)
    requires chunks != [] && m >= |Line(chunks[0])| + 2 + |chunks[0].data|
    requires Readable(headOf, chunks) && HoldsFrom(body, pos, chunks, tail, m)
    requires Yields(headOf, body, pos + |ChunkText(chunks[0])|, more)
    ensures Yields(headOf, body, pos, chunks[0].data + more)
  {
    FirstChunk(chunks, tail);
    assert chunks[0] in chunks;
    YieldsChunk(headOf, body, pos, Line(chunks[0]), chunks[0].data, Encoded(chunks[1..]) + tail, m, more);
  }

  /** The first chunk is not there whole. */
  lemma YieldsNoFirst(headOf: Reader, body: string, pos: nat, chunks: seq<Chunk>, tail: string, m: nat)
    requires chunks != [] && m < |Line(chunks[0])| + 2 + |chunks[0].data|
    requires Readable(headOf, chunks) && HoldsFrom(body, pos, chunks, tail, m)
    ensures Yields(headOf, body, pos, "")
  {
    FirstChunk(chunks, tail);
    assert chunks[0] in chunks;
    YieldsNoChunk(headOf, body, pos, Line(chunks[0]), chunks[0].data, Encoded(chunks[1..]) + tail, m);
  }

  /** The first chunk's data is there, the line end behind it is not. */
  lemma YieldsOnlyFirst(headOf: Reader, body: string, pos: nat, chunks: seq<Chunk>, tail: string, m: nat)
    requires chunks != [] && |Line(chunks[0])| + 2 + |chunks[0].data| <= m < |ChunkText(chunks[0])|
    requires Readable(headOf, chunks) && HoldsFrom(body, pos, chunks, tail, m)
    ensures Yields(headOf, body, pos, Data(chunks[..1]))
  {
    assert |body[pos..]| == m;
    YieldsNothing(headOf, body, pos + |ChunkText(chunks[0])|);
    YieldsFirst(headOf, body, pos, chunks, tail, m, "");
    DataOfFirst(chunks, 0);
  }

  lemma TailYields(headOf: Reader, body: string, pos: nat, tail: string, m: nat)
    requires Ends(headOf, tail) && HoldsFrom(body, pos, [], tail, m)
    ensures Yields(headOf, body, pos, "")
  {
    assert Encoded([]) + tail == tail;
    assert headOf(tail[..m]).NoHead?;
    YieldsNothing(headOf, body, pos);
  }

  lemma DataOfWhole(chunks: seq<Chunk>, m: nat)
    requires chunks != [] && m >= |ChunkText(chunks[0])|
    ensures var w := Whole(chunks[1..], m - |ChunkText(chunks[0])|);
            Data(chunks[..Whole(chunks, m)]) == chunks[0].data + Data(chunks[1..][..w])
  {
    DataOfFirst(chunks, Whole(chunks[1..], m - |ChunkText(chunks[0])|));
  }

  /** The first chunk is there with its line end, and what follows yields the data of the rest. */
  lemma FirstAndRestYield(headOf: Reader, body: string, pos: nat, chunks: seq<Chunk>, tail: string, m: nat)
    requires chunks != [] && m >= |ChunkText(chunks[0])|
    requires Readable(headOf, chunks) && HoldsFrom(body, pos, chunks, tail, m)
    requires var n := |ChunkText(chunks[0])|; Yields(headOf, body, pos + n, Data(chunks[1..][..Whole(chunks[1..], m - n)]))
    ensures Yields(headOf, body, pos, Data(chunks[..Whole(chunks, m)]))
  {
    var n := |ChunkText(chunks[0])|;
    var more := Data(chunks[1..][..Whole(chunks[1..], m - n)]);
    assert Data(chunks[..Whole(chunks, m)]) == chunks[0].data + more by { DataOfWhole(chunks, m); }
    assert m >= |Line(chunks[0])| + 2 + |chunks[0].data|;
    YieldsFirst(headOf, body, pos, chunks, tail, m, more);
  }

  lemma {:induction false} CutYields(headOf: Reader, body: string, pos: nat, chunks: seq<Chunk>, tail: string, m: nat)
    requires Readable(headOf, chunks) && Ends(headOf, tail) && HoldsFrom(body, pos, chunks, tail, m)
    ensures Yields(headOf, body, pos, Data(chunks[..Whole(chunks, m)]))
    decreases |chunks|
  {
    if chunks == [] {
      TailYields(headOf, body, pos, tail, m);
    } else if m < |Line(chunks[0])| + 2 + |chunks[0].data| {
      YieldsNoFirst(headOf, body, pos, chunks, tail, m);
    } else if m < |ChunkText(chunks[0])| {
      YieldsOnlyFirst(headOf, body, pos, chunks, tail, m);
    } else {
      var n := |ChunkText(chunks[0])|;
      HoldsRest(body, pos, chunks, tail, m);
      CutYields(headOf, body, pos + n, chunks[1..], tail, m - n);
      FirstAndRestYield(headOf, body, pos, chunks, tail, m);
    }
  }

  lemma DataOfFirst(chunks: seq<Chunk>, n: nat)
    requires n < |chunks|
    ensures Data(chunks[..n + 1]) == chunks[0].data + Data(chunks[1..][..n])
  {
    assert chunks[..n + 1][1..] == chunks[1..][..n];
  }

  lemma ChunkLineReads(headOf: Reader, c: Chunk)
    requires IsHeadOf(headOf) && WellFormed(c)
    ensures ReadsLine(headOf, Line(c), |c.data|)
  {
    forall t: string
      ensures headOf(Line(c) + CRLF + t) == Head(|Line(c)| + 2, |c.data|)
    {
      SizeLineReads(c.sizeText, c.extension, t);
    }
    forall k | 0 <= k < |Line(c)| + 2
      ensures headOf((Line(c) + CRLF)[..k]).NoHead?
    {
      CutSizeLineReads(c.sizeText, c.extension, k);
    }
  }

  /** The last chunk of the coding, and anything after it. */
  function LastChunk(zeros: string, extension: string, after: string): string {
    zeros + extension + CRLF + after
  }

  lemma CutLastChunk(headOf: Reader, zeros: string, extension: string, after: string, k: nat)
    requires IsHeadOf(headOf) && HexText(zeros) && HexRun(zeros, 0) == 0 && ExtensionText(extension)
    requires k <= |LastChunk(zeros, extension, after)|
    ensures headOf(LastChunk(zeros, extension, after)[..k]).NoHead?
  {
    var tail, line := LastChunk(zeros, extension, after), zeros + extension;
    if k < |line| + 2 {
      assert tail[..k] == (line + CRLF)[..k];
      assert HeadOf((line + CRLF)[..k]).NoHead? by { CutSizeLineReads(zeros, extension, k); }
    } else {
      var rest := after[..k - |line| - 2];
      assert tail[..k] == line + CRLF + rest;
      assert HeadOf(line + CRLF + rest).NoHead? by { SizeLineReads(zeros, extension, rest); }
    }
  }

  lemma LastChunkEnds(headOf: Reader, zeros: string, extension: string, after: string)
    requires IsHeadOf(headOf) && HexText(zeros) && HexRun(zeros, 0) == 0 && ExtensionText(extension)
    ensures Ends(headOf, LastChunk(zeros, extension, after))
  {
    forall k | 0 <= k <= |LastChunk(zeros, extension, after)|
      ensures headOf(LastChunk(zeros, extension, after)[..k]).NoHead?
    {
      CutLastChunk(headOf, zeros, extension, after, k);
    }
  }

  // ----- main results -----

  /** Well-formed chunks, the last chunk, and anything after it; as long as a string can be. */
  ghost predicate IsBody(body: string, chunks: seq<Chunk>, zeros: string, extension: string, after: string) {
    && (forall c :: c in chunks ==> WellFormed(c))
    && HexText(zeros) && HexRun(zeros, 0) == 0 && ExtensionText(extension)
    && body == Encoded(chunks) + LastChunk(zeros, extension, after)
  }

  /** Any truncation of a chunked body decodes to the data of exactly those chunks whose data
      it contains whole: the source's loop stops within one turn more than there are
      characters, no sum wraps on the way, and that is its result. */
  lemma TruncationDecodes(headOf: Reader, body: string, chunks: seq<Chunk>, zeros: string, extension: string, after: string, m: nat)
    requires IsHeadOf(headOf) && IsBody(body, chunks, zeros, extension, after) && m <= |body| && m < MAX_STRING
    ensures FirstWrap(headOf, body[..m], 0).NoWrap?
    ensures Turns(headOf, body[..m], m + 1, At(0, "")) == Stopped(Data(chunks[..Whole(chunks, m)]))
  {
    var cut := body[..m];
    forall c | c in chunks
      ensures ReadsLine(headOf, Line(c), |c.data|)
    {
      ChunkLineReads(headOf, c);
    }
    LastChunkEnds(headOf, zeros, extension, after);
    assert cut[0..] == cut;
    CutYields(headOf, cut, 0, chunks, LastChunk(zeros, extension, after), m);
    StopsWithoutWrap(headOf, cut, m + 1, 0, "");
    assert "" + Data(chunks[..Whole(chunks, m)]) == Data(chunks[..Whole(chunks, m)]);
  }

  lemma {:induction false} AllWhole(chunks: seq<Chunk>, m: nat)
    requires m >= |Encoded(chunks)|
    ensures Whole(chunks, m) == |chunks|
    decreases |chunks|
  {
    if chunks != [] { AllWhole(chunks[1..], m - |ChunkText(chunks[0])|); }
  }

  /** Decoding a chunked body gives back the concatenated data. */
  lemma EncodingDecodes(headOf: Reader, body: string, chunks: seq<Chunk>, zeros: string, extension: string, after: string)
    requires IsHeadOf(headOf) && IsBody(body, chunks, zeros, extension, after) && |body| < MAX_STRING
    ensures Turns(headOf, body, |body| + 1, At(0, "")) == Stopped(Data(chunks))
  {
    TruncationDecodes(headOf, body, chunks, zeros, extension, after, |body|);
    AllWhole(chunks, |body|);
    assert body[..|body|] == body && chunks[..|chunks|] == chunks;
  }

  lemma {:induction false} DataPrefix(chunks: seq<Chunk>, n: nat)
    requires n <= |chunks|
    ensures Data(chunks[..n]) <= Data(chunks)
    decreases |chunks|
  {
    if n > 0 {
      DataPrefix(chunks[1..], n - 1);
      DataOfFirst(chunks, n - 1);
    }
  }

  /** So a truncated body never decodes to anything but a prefix of the whole. */
  lemma TruncationDecodesToPrefix(headOf: Reader, body: string, chunks: seq<Chunk>, zeros: string, extension: string, after: string, m: nat)
    requires IsHeadOf(headOf) && IsBody(body, chunks, zeros, extension, after) && m <= |body| && m < MAX_STRING
    ensures Turns(headOf, body[..m], m + 1, At(0, "")).Stopped?
    ensures Turns(headOf, body[..m], m + 1, At(0, "")).result <= Data(chunks)
  {
    TruncationDecodes(headOf, body, chunks, zeros, extension, after, m);
    DataPrefix(chunks, Whole(chunks, m));
  }
}
