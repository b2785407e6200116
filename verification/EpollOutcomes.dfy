/** What each readiness event of the epoll query server comes to (src/query_server_epoll.cpp):
    which connections survive it, which line is answered, and what is left to send. */
module EpollOutcomes {
  import opened QueryConnection
  import opened EpollServer

  // ----- reading -----

  /** The buffer after k calls of recv, each limited to the room that is left. */
  function Held(inbuf: string, recvs: seq<RecvResult>, k: nat): string
    requires k <= |recvs|
  {
    if k == 0 then inbuf
    else
      var before := Held(inbuf, recvs, k - 1);
      if !recvs[k - 1].Bytes? || |before| >= 511 then before
      else if |before + recvs[k - 1].data| <= 511 then before + recvs[k - 1].data
      else (before + recvs[k - 1].data)[..511]
  }

  /** The k-th call is made and yields bytes, which complete no line. */
  predicate ReadsOn(inbuf: string, recvs: seq<RecvResult>, k: nat)
    requires k < |recvs|
  {
    && |Held(inbuf, recvs, k)| < 511 && recvs[k].Bytes? && recvs[k].data != ""
    && '\n' !in Held(inbuf, recvs, k + 1)
  }

  /** The first k calls yield bytes, which complete no line. */
  predicate ReadsUpTo(inbuf: string, recvs: seq<RecvResult>, k: nat) {
    k <= |recvs| && forall j: nat :: j < k ==> ReadsOn(inbuf, recvs, j)
  }

  /** The connection once its buffer has grown to `held`. */
  function Grown(c: Conn, held: string): Conn
    requires c.inbuf <= held
  {
    c.(inbuf := held, received := c.received + held[|c.inbuf|..])
  }

  lemma {:induction false} HeldGrows(inbuf: string, recvs: seq<RecvResult>, k: nat)
    requires k <= |recvs|
    ensures inbuf <= Held(inbuf, recvs, k)
  {
    if k > 0 { HeldGrows(inbuf, recvs, k - 1); }
  }

  /** One more call grows the buffer as far as the room goes. */
  lemma CallGrows(c: Conn, recvs: seq<RecvResult>, k: nat)
    requires k < |recvs| && |Held(c.inbuf, recvs, k)| < 511 && recvs[k].Bytes?
    ensures c.inbuf <= Held(c.inbuf, recvs, k) && c.inbuf <= Held(c.inbuf, recvs, k + 1)
    ensures
      var (held, data) := (Held(c.inbuf, recvs, k), recvs[k].data);
      Buffered(Grown(c, held), data[..Clip(|data|, INBUF_SIZE - |held| - 1)]) == Grown(c, Held(c.inbuf, recvs, k + 1))
  {
    HeldGrows(c.inbuf, recvs, k);
    HeldGrows(c.inbuf, recvs, k + 1);
    var (held, more, data) := (Held(c.inbuf, recvs, k), Held(c.inbuf, recvs, k + 1), recvs[k].data);
    var taken := data[..Clip(|data|, INBUF_SIZE - |held| - 1)];
    assert more == held + taken;
    assert c.received + held[|c.inbuf|..] + taken == c.received + more[|c.inbuf|..];
  }

  /** A call that completes no line: the loop goes on with the longer buffer. */
  lemma LoopReadsOn(handle: Handler, c: Conn, recvs: seq<RecvResult>, k: nat)
    requires k < |recvs| && ReadsOn(c.inbuf, recvs, k)
    ensures c.inbuf <= Held(c.inbuf, recvs, k) && c.inbuf <= Held(c.inbuf, recvs, k + 1)
    ensures ReadLoop(handle, Grown(c, Held(c.inbuf, recvs, k)), recvs[k..])
         == ReadLoop(handle, Grown(c, Held(c.inbuf, recvs, k + 1)), recvs[k + 1..])
  {
    CallGrows(c, recvs, k);
    assert recvs[k..][1..] == recvs[k + 1..];
  }

  lemma {:induction false} LoopReads(handle: Handler, c: Conn, recvs: seq<RecvResult>, k: nat)
    requires ReadsUpTo(c.inbuf, recvs, k)
    ensures c.inbuf <= Held(c.inbuf, recvs, k)
    ensures ReadLoop(handle, c, recvs) == ReadLoop(handle, Grown(c, Held(c.inbuf, recvs, k)), recvs[k..])
  {
    if k == 0 {
      assert c.inbuf[|c.inbuf|..] == "" && recvs[0..] == recvs;
      assert Grown(c, c.inbuf) == c;
    } else {
      LoopReads(handle, c, recvs, k - 1);
      assert ReadsOn(c.inbuf, recvs, k - 1);
      LoopReadsOn(handle, c, recvs, k - 1);
    }
  }

  function ReadEvent(fd: nat, recvs: seq<RecvResult>): Event { Ready(fd, false, true, false, recvs, []) }

  /** Bytes that complete no line are kept, and the connection goes on reading once the socket
      has no more; an error, an end of file, or 511 bytes without a line end closes it. */
  lemma ReadingWithoutLine(handle: Handler, s: Server, fd: nat, recvs: seq<RecvResult>, k: nat)
    requires fd in s.peers && !s.peers[fd].writing && ReadsUpTo(s.peers[fd].conn.inbuf, recvs, k)
    requires || |Held(s.peers[fd].conn.inbuf, recvs, k)| >= 511
             || k == |recvs| || !recvs[k].Bytes? || recvs[k].data == ""
    ensures
      var (c, t) := (s.peers[fd].conn, Step(handle, s, ReadEvent(fd, recvs)));
      var held := Held(c.inbuf, recvs, k);
      && c.inbuf <= held && t.accepted == s.accepted
      && if |held| < 511 && (k == |recvs| || recvs[k].RecvAgain?)
         then t.peers == s.peers[fd := Peer(Grown(c, held), false)] && t.closed == s.closed
         else t.peers == s.peers - {fd} && t.closed == s.closed + [Grown(c, held)]
  {
    LoopReads(handle, s.peers[fd].conn, recvs, k);
    assert k < |recvs| ==> recvs[k..][0] == recvs[k];
  }

  /** The call that completes a line: exactly the first line is handled, as the connection's
      next request, and the connection turns to writing the response from its beginning. */
  lemma ReadingALine(handle: Handler, s: Server, fd: nat, recvs: seq<RecvResult>, k: nat,
                     line: string, text: string, rest: string)
    requires fd in s.peers && !s.peers[fd].writing && ReadsUpTo(s.peers[fd].conn.inbuf, recvs, k)
    requires k < |recvs| && |Held(s.peers[fd].conn.inbuf, recvs, k)| < 511 && recvs[k].Bytes? && recvs[k].data != ""
    requires Held(s.peers[fd].conn.inbuf, recvs, k + 1) == line + "\n" + rest
    requires '\n' !in line && TextOfCString(line, text)
    ensures s.peers[fd].conn.inbuf <= line + "\n" + rest
    ensures
      var c := s.peers[fd].conn;
      var arrived := (line + "\n" + rest)[|c.inbuf|..];
      var answered := Conn(c.serial, rest, handle(c.serial, |c.lines|, text), 0,
                           c.received + arrived, c.lines + [line], c.sent);
      Step(handle, s, ReadEvent(fd, recvs)) == s.(peers := s.peers[fd := Peer(answered, true)])
  {
    var c := s.peers[fd].conn;
    LoopReads(handle, c, recvs, k);
    CallGrows(c, recvs, k);
    AnsweredMeaning(handle, Grown(c, Held(c.inbuf, recvs, k + 1)), line, text, rest);
  }

  /** Every read event is one of the two: some call completes a line, or the loop stops before. */
  lemma {:induction false} ReadsStop(inbuf: string, recvs: seq<RecvResult>, k: nat) returns (stop: nat)
    requires ReadsUpTo(inbuf, recvs, k)
    ensures ReadsUpTo(inbuf, recvs, stop)
    ensures || |Held(inbuf, recvs, stop)| >= 511
            || stop == |recvs| || !recvs[stop].Bytes? || recvs[stop].data == ""
            || '\n' in Held(inbuf, recvs, stop + 1)
    decreases |recvs| - k
  {
    if k == |recvs| || !ReadsOn(inbuf, recvs, k) {
      stop := k;
    } else {
      stop := ReadsStop(inbuf, recvs, k + 1);
    }
  }

  // ----- writing -----

  function WriteEvent(fd: nat, sends: seq<SendResult>): Event { Ready(fd, false, false, true, [], sends) }

  /** The bytes that the first k calls of send take together. */
  function SentBy(sends: seq<SendResult>, k: nat): nat
    requires k <= |sends|
  {
    if k == 0 then 0 else SentBy(sends, k - 1) + if sends[k - 1].Wrote? then sends[k - 1].n else 0
  }

  /** The connection once n more bytes of its response are out. */
  function Ahead(c: Conn, n: nat): Conn
    requires c.outpos + n <= |c.outbuf|
  {
    c.(outpos := c.outpos + n, sent := c.sent + c.outbuf[c.outpos..c.outpos + n])
  }

  /** The first k calls take bytes and leave some. */
  ghost predicate WritesUpTo(c: Conn, sends: seq<SendResult>, k: nat) {
    && k <= |sends| && (forall j: nat :: j < k ==> sends[j].Wrote?)
    && c.outpos + SentBy(sends, k) < |c.outbuf|
  }

  lemma AheadFurther(c: Conn, before: nat, n: nat)
    requires c.outpos + before + n < |c.outbuf|
    ensures Advanced(Ahead(c, before), n) == Ahead(c, before + n)
  {
    assert c.sent + c.outbuf[c.outpos..c.outpos + before] + c.outbuf[c.outpos + before..c.outpos + before + n]
        == c.sent + c.outbuf[c.outpos..c.outpos + before + n];
  }

  lemma {:induction false} LoopWrites(c: Conn, sends: seq<SendResult>, k: nat)
    requires WritesUpTo(c, sends, k)
    ensures WriteLoop(c, sends) == WriteLoop(Ahead(c, SentBy(sends, k)), sends[k..])
  {
    if k == 0 {
      assert c.outbuf[c.outpos..c.outpos + 0] == "" && sends[0..] == sends && Ahead(c, 0) == c;
    } else {
      LoopWrites(c, sends, k - 1);
      AheadFurther(c, SentBy(sends, k - 1), sends[k - 1].n);
      assert sends[k - 1..][1..] == sends[k..];
    }
  }

  /** The call that takes the rest of the response. */
  lemma LastSend(c: Conn, before: nat, sends: seq<SendResult>)
    requires c.outpos + before < |c.outbuf| && sends != [] && sends[0].Wrote?
    requires c.outpos + before + sends[0].n >= |c.outbuf|
    ensures WriteLoop(Ahead(c, before), sends)
         == Left(Peer(Conn(c.serial, c.inbuf, "", 0, c.received, c.lines, c.sent + c.outbuf[c.outpos..]), false), true)
  {
    var ahead, rest := Ahead(c, before), |c.outbuf| - c.outpos - before;
    assert ahead.outbuf[ahead.outpos..ahead.outpos + rest] == c.outbuf[c.outpos + before..];
    assert c.sent + c.outbuf[c.outpos..c.outpos + before] + c.outbuf[c.outpos + before..]
        == c.sent + c.outbuf[c.outpos..];
    assert Advanced(ahead, rest) == Conn(c.serial, c.inbuf, "", 0, c.received, c.lines, c.sent + c.outbuf[c.outpos..]);
  }

  /** A socket that takes part of the response leaves the connection writing the rest; an error
      closes it. */
  lemma WritingPart(handle: Handler, s: Server, fd: nat, sends: seq<SendResult>, k: nat)
    requires fd in s.peers && s.peers[fd].writing && WritesUpTo(s.peers[fd].conn, sends, k)
    requires k == |sends| || !sends[k].Wrote?
    ensures
      var t := Step(handle, s, WriteEvent(fd, sends));
      var c := Ahead(s.peers[fd].conn, SentBy(sends, k));
      if k == |sends| || sends[k].SendAgain? then t == s.(peers := s.peers[fd := Peer(c, true)])
      else t == s.(peers := s.peers - {fd}, closed := s.closed + [c])
  {
    LoopWrites(s.peers[fd].conn, sends, k);
    assert k < |sends| ==> sends[k..][0] == sends[k];
  }

  /** Once the socket has taken all of the response the connection reads again, with what it
      had already received of the next request. */
  lemma WritingAll(handle: Handler, s: Server, fd: nat, sends: seq<SendResult>, k: nat)
    requires fd in s.peers && s.peers[fd].writing && WritesUpTo(s.peers[fd].conn, sends, k)
    requires k < |sends| && sends[k].Wrote? && s.peers[fd].conn.outpos + SentBy(sends, k + 1) >= |s.peers[fd].conn.outbuf|
    ensures
      var c := s.peers[fd].conn;
      var done := Conn(c.serial, c.inbuf, "", 0, c.received, c.lines, c.sent + c.outbuf[c.outpos..]);
      Step(handle, s, WriteEvent(fd, sends)) == s.(peers := s.peers[fd := Peer(done, false)])
  {
    LoopWrites(s.peers[fd].conn, sends, k);
    LastSend(s.peers[fd].conn, SentBy(sends, k), sends[k..]);
  }

  /** Every write event with something to send is one of the two. */
  lemma {:induction false} WritesStop(c: Conn, sends: seq<SendResult>, k: nat) returns (stop: nat)
    requires WritesUpTo(c, sends, k)
    ensures WritesUpTo(c, sends, stop)
    ensures stop == |sends| || !sends[stop].Wrote? || c.outpos + SentBy(sends, stop + 1) >= |c.outbuf|
    decreases |sends| - k
  {
    if k == |sends| || !sends[k].Wrote? || c.outpos + SentBy(sends, k + 1) >= |c.outbuf| {
      stop := k;
    } else {
      stop := WritesStop(c, sends, k + 1);
    }
  }

  /** With nothing left to send, the connection turns to reading at once. */
  lemma WritingNothing(handle: Handler, s: Server, fd: nat, sends: seq<SendResult>)
    requires fd in s.peers && s.peers[fd].writing && s.peers[fd].conn.outpos >= |s.peers[fd].conn.outbuf|
    ensures Step(handle, s, WriteEvent(fd, sends))
         == s.(peers := s.peers[fd := Peer(s.peers[fd].conn.(outbuf := "", outpos := 0), false)])
  {
  }

  // ----- other events -----

  /** A hangup closes; readiness a connection is not waiting for changes nothing; and an event
      that reports both reads first and then writes. */
  lemma OtherEvents(handle: Handler, s: Server, fd: nat, r: bool, w: bool, recvs: seq<RecvResult>, sends: seq<SendResult>)
    requires fd in s.peers
    ensures Step(handle, s, Ready(fd, true, r, w, recvs, sends))
         == s.(peers := s.peers - {fd}, closed := s.closed + [s.peers[fd].conn])
    ensures s.peers[fd].writing ==> Step(handle, s, ReadEvent(fd, recvs)) == s
    ensures !s.peers[fd].writing ==> Step(handle, s, WriteEvent(fd, sends)) == s
    ensures Step(handle, s, Ready(fd, false, true, true, recvs, sends))
         == Step(handle, Step(handle, s, ReadEvent(fd, recvs)), WriteEvent(fd, sends))
  {
    assert s.peers[fd := s.peers[fd]] == s.peers;
  }

  /** Every descriptor accepted ends up open: those that were not, as new connections with
      serials of their own, in order. */
  lemma {:induction false} AcceptsAll(handle: Handler, s: Server, fds: seq<nat>)
    ensures
      var t := Step(handle, s, Incoming(fds));
      && (forall fd :: fd in t.peers <==> fd in s.peers || fd in fds)
      && (forall fd :: fd in s.peers ==> t.peers[fd] == s.peers[fd])
      && (forall fd :: fd in fds && fd !in s.peers ==>
            s.accepted <= t.peers[fd].conn.serial < t.accepted
            && t.peers[fd] == Peer(Conn(t.peers[fd].conn.serial, "", "", 0, "", [], ""), false))
      && t.closed == s.closed && s.accepted <= t.accepted
  {
    if fds != [] {
      AcceptsAll(handle, s, fds[..|fds| - 1]);
      assert fds == fds[..|fds| - 1] + [fds[|fds| - 1]];
    }
  }
}
