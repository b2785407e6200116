/** One connection of the query servers: requests are lines, framed in a 512-byte buffer, and
    answered one at a time (src/query_server_uring.cpp, src/query_server_epoll.cpp). */
module QueryConnection {
  import opened TextSearch

  const INBUF_SIZE := 512

  /** The response to the k-th request of a connection, given the line.  Every request of a run
      has its own index, so the response may depend on the moment, as one read off live books
      does: any responses a run can give are those of some handler. */
  type Handler = (nat, nat, string) -> string
  const NUL: char := 0 as char

  /** `received`, `lines` and `sent` record the past: all bytes received, the lines handled, all
      bytes sent.  `serial` tells connections apart that reuse a descriptor. */
  datatype Conn = Conn(
    serial: nat,
    inbuf: string,
    outbuf: string,
    outpos: nat,
    received: string,
    lines: seq<string>,
    sent: string)

  function NewConn(serial: nat): Conn { Conn(serial, "", "", 0, "", [], "") }

  /** What a C string holding the line shows its reader. */
  function CString(line: string): string { line[..IndexOf(line, NUL)] }

  predicate Unsent(c: Conn) { c.outpos < |c.outbuf| }

  /** Bytes have arrived and no line is complete. */
  function Buffered(c: Conn, data: string): Conn {
    c.(inbuf := c.inbuf + data, received := c.received + data)
  }

  predicate HasLine(c: Conn) { '\n' in c.inbuf }

  /** The first line is handed to the handler and leaves the buffer. */
  function Answered(handle: Handler, c: Conn): Conn
    requires HasLine(c)
  {
    var nl := IndexOf(c.inbuf, '\n');
    var line := c.inbuf[..nl];
    c.(inbuf := c.inbuf[nl + 1..], outbuf := handle(c.serial, |c.lines|, CString(line)), outpos := 0, lines := c.lines + [line])
  }

  /** n more bytes of the response are out; a finished response is dropped. */
  function Advanced(c: Conn, n: nat): Conn
    requires c.outpos + n <= |c.outbuf|
  {
    var sent := c.sent + c.outbuf[c.outpos..c.outpos + n];
    if c.outpos + n < |c.outbuf| then c.(outpos := c.outpos + n, sent := sent)
    else c.(outbuf := "", outpos := 0, sent := sent)
  }

  /** The text of a C string: everything before the first NUL, or all of it. */
  ghost predicate TextOfCString(line: string, text: string) {
    text <= line && NUL !in text && (text == line || line[|text|] == NUL)
  }

  lemma CStringMeaning(line: string, text: string)
    requires TextOfCString(line, text)
    ensures CString(line) == text
  {
    if text == line {
      var i := IndexOf(line, NUL);
      assert i == |line|;
    } else {
      assert line == text + [NUL] + line[|text| + 1..];
      FirstIndex(text, NUL, line[|text| + 1..]);
    }
  }

  /** Answering takes the text up to the first line end as the request: the response is the
      handler's to that request, and what follows the line end stays in the buffer. */
  lemma AnsweredMeaning(handle: Handler, c: Conn, line: string, text: string, rest: string)
    requires c.inbuf == line + "\n" + rest && '\n' !in line && TextOfCString(line, text)
    ensures HasLine(c)
    ensures Answered(handle, c)
         == Conn(c.serial, rest, handle(c.serial, |c.lines|, text), 0, c.received, c.lines + [line], c.sent)
  {
    assert c.inbuf[|line|] == '\n';
    FirstIndex(line, '\n', rest);
    assert c.inbuf == line + ['\n'] + rest;
    assert c.inbuf[..|line|] == line && c.inbuf[|line| + 1..] == rest;
    CStringMeaning(line, text);
  }

  /** A send moves n bytes from the unsent part of the response to the bytes sent, and touches
      nothing else; only a response with unsent bytes is kept. */
  lemma AdvancedMeaning(c: Conn, n: nat)
    requires c.outpos + n <= |c.outbuf|
    ensures
      var r := Advanced(c, n);
      && r.sent == c.sent + c.outbuf[c.outpos..c.outpos + n]
      && r.outpos <= |r.outbuf| && r.outbuf[r.outpos..] == c.outbuf[c.outpos + n..]
      && (Unsent(r) <==> c.outbuf[c.outpos + n..] != "") && (!Unsent(r) ==> r.outbuf == "")
      && r == Conn(c.serial, c.inbuf, r.outbuf, r.outpos, c.received, c.lines, r.sent)
  {
  }

  // ----- what a connection keeps -----

  function Joined(lines: seq<string>): string {
    if lines == [] then "" else Joined(lines[..|lines| - 1]) + lines[|lines| - 1] + "\n"
  }

  function Responses(handle: Handler, serial: nat, lines: seq<string>): string {
    if lines == [] then ""
    else
      var n := |lines| - 1;
      Responses(handle, serial, lines[..n]) + handle(serial, n, CString(lines[n]))
  }

  /** No byte received is lost, duplicated or reordered, and the bytes sent are the responses
      in request order, up to what is still unsent of the last one. */
  predicate Streams(handle: Handler, c: Conn) {
    && Joined(c.lines) + c.inbuf == c.received
    && (forall line :: line in c.lines ==> '\n' !in line)
    && c.outpos <= |c.outbuf|
    && c.sent + c.outbuf[c.outpos..] == Responses(handle, c.serial, c.lines)
  }

  lemma NewStreams(handle: Handler, serial: nat)
    ensures Streams(handle, NewConn(serial))
  {
  }

  lemma BufferedStreams(handle: Handler, c: Conn, data: string)
    requires Streams(handle, c)
    ensures Streams(handle, Buffered(c, data))
  {
    assert Joined(c.lines) + (c.inbuf + data) == (Joined(c.lines) + c.inbuf) + data;
  }

  lemma AnsweredStreams(handle: Handler, c: Conn)
    requires Streams(handle, c) && !Unsent(c) && HasLine(c)
    ensures Streams(handle, Answered(handle, c))
    ensures |Answered(handle, c).inbuf| < |c.inbuf|
  {
    var r := Answered(handle, c);
    var nl := IndexOf(c.inbuf, '\n');
    var line := c.inbuf[..nl];
    assert nl < |c.inbuf|;
    assert c.inbuf == line + "\n" + r.inbuf;
    assert r.lines[..|c.lines|] == c.lines;
    assert Joined(r.lines) == Joined(c.lines) + line + "\n";
    assert Joined(r.lines) + r.inbuf == Joined(c.lines) + c.inbuf;
    assert forall i :: 0 <= i < |line| ==> line[i] == c.inbuf[i];
    assert Responses(handle, c.serial, r.lines) == Responses(handle, c.serial, c.lines) + r.outbuf;
    assert c.outbuf[c.outpos..] == "";
    assert r.outbuf[0..] == r.outbuf;
  }

  lemma AdvancedStreams(handle: Handler, c: Conn, n: nat)
    requires Streams(handle, c) && c.outpos + n <= |c.outbuf|
    ensures Streams(handle, Advanced(c, n))
  {
    var piece, after := c.outbuf[c.outpos..c.outpos + n], c.outbuf[c.outpos + n..];
    assert c.outbuf[c.outpos..] == piece + after;
    assert (c.sent + piece) + after == c.sent + (piece + after);
    var r := Advanced(c, n);
    assert r.outbuf[r.outpos..] == after;
  }

  // ----- what that means -----

  /** The complete lines of a text. */
  function LinesOf(text: string): seq<string>
    decreases |text|
  {
    var nl := IndexOf(text, '\n');
    if nl == |text| then [] else [text[..nl]] + LinesOf(text[nl + 1..])
  }

  lemma FirstLine(line: string, rest: string)
    requires '\n' !in line
    ensures LinesOf(line + "\n" + rest) == [line] + LinesOf(rest)
  {
    var text := line + "\n" + rest;
    FirstIndex(line, '\n', rest);
    assert text == line + ['\n'] + rest;
    assert text[..|line|] == line && text[|line| + 1..] == rest;
  }

  lemma JoinedLast(lines: seq<string>, rest: string)
    requires lines != []
    ensures Joined(lines) + rest == Joined(lines[..|lines| - 1]) + (lines[|lines| - 1] + "\n" + rest)
  {
  }

  lemma LastThenMore(lines: seq<string>, more: seq<string>)
    requires lines != []
    ensures lines[..|lines| - 1] + ([lines[|lines| - 1]] + more) == lines + more
  {
  }

  lemma {:induction false} FirstLines(lines: seq<string>, rest: string)
    requires forall line :: line in lines ==> '\n' !in line
    ensures LinesOf(Joined(lines) + rest) == lines + LinesOf(rest)
  {
    if lines == [] {
      assert Joined(lines) + rest == rest;
    } else {
      var n := |lines| - 1;
      FirstLine(lines[n], rest);
      FirstLines(lines[..n], lines[n] + "\n" + rest);
      JoinedLast(lines, rest);
      LastThenMore(lines, LinesOf(rest));
    }
  }

  /** However the input is cut into pieces, the lines handled are the first lines of the bytes
      received, and the rest waits in the buffer. */
  lemma HandledAreTheFirstLines(handle: Handler, c: Conn)
    requires Streams(handle, c)
    ensures c.lines <= LinesOf(c.received)
    ensures LinesOf(c.received) == c.lines + LinesOf(c.inbuf)
  {
    FirstLines(c.lines, c.inbuf);
  }

  lemma CStringOfPlain(line: string)
    requires NUL !in line
    ensures CString(line) == line
  {
    var i := IndexOf(line, NUL);
    assert i == |line|;
  }

  function PlainResponses(handle: Handler, serial: nat, lines: seq<string>): string {
    if lines == [] then ""
    else
      var n := |lines| - 1;
      PlainResponses(handle, serial, lines[..n]) + handle(serial, n, lines[n])
  }

  lemma {:induction false} PlainAnswers(handle: Handler, serial: nat, lines: seq<string>)
    requires forall line :: line in lines ==> NUL !in line
    ensures Responses(handle, serial, lines) == PlainResponses(handle, serial, lines)
  {
    if lines != [] {
      PlainAnswers(handle, serial, lines[..|lines| - 1]);
      CStringOfPlain(lines[|lines| - 1]);
    }
  }

  lemma {:induction false} JoinedHolds(lines: seq<string>, k: nat, c: char)
    requires k < |lines|
    ensures c in lines[k] ==> c in Joined(lines)
  {
    if k < |lines| - 1 { JoinedHolds(lines[..|lines| - 1], k, c); }
  }

  /** For NUL-free input the handler sees the lines themselves, and the bytes sent followed by
      the unsent rest are its responses in order. */
  lemma AnswersInOrder(handle: Handler, c: Conn)
    requires Streams(handle, c) && NUL !in c.received
    ensures c.sent + c.outbuf[c.outpos..] == PlainResponses(handle, c.serial, c.lines)
    ensures !Unsent(c) ==> c.sent == PlainResponses(handle, c.serial, c.lines)
  {
    forall line | line in c.lines
      ensures NUL !in line
    {
      var k :| 0 <= k < |c.lines| && c.lines[k] == line;
      JoinedHolds(c.lines, k, NUL);
    }
    PlainAnswers(handle, c.serial, c.lines);
  }
}
