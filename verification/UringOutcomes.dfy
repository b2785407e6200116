/** What each completion of the io_uring query server comes to (src/query_server_uring.cpp):
    which connections survive it, which line is answered, and which operation follows. */
module UringOutcomes {
  import opened QueryConnection
  import opened UringServer

  /** An accepted descriptor starts out as a new connection waiting for its first bytes; a
      failed accept changes nothing.  Either way the next accept is in flight. */
  lemma AcceptOpens(handle: Handler, s: Server, e: Completion)
    requires Answers(handle) && Reachable(handle, s) && Enabled(s, e) && e.op.Accept?
    ensures
      var t := Complete(handle, s, e);
      if e.outcome.Failed? then t == s
      else
        var fd := e.outcome.fd;
        && t.conns == s.conns[fd := Conn(s.accepted, "", "", 0, "", [], "")]
        && t.flight == s.flight + multiset{Recv(fd, s.accepted, 511)}
        && t.accepted == s.accepted + 1 && t.closed == s.closed
  {
    ReachableInv(handle, s);
    assert s.flight - multiset{Accept} + multiset{Accept} == s.flight;
  }

  /** What the operation of a completion says about its connection. */
  lemma OperationFits(handle: Handler, s: Server, e: Completion)
    requires Answers(handle) && Reachable(handle, s) && Enabled(s, e) && !e.op.Accept?
    ensures e.op.fd in s.conns
    ensures
      var c := s.conns[e.op.fd];
      && |c.inbuf| < 511
      && (e.op.Recv? ==> !e.outcome.Count? && (e.outcome.Data? ==> |c.inbuf| + |e.outcome.bytes| <= 511))
      && (e.op.Send? ==> !e.outcome.Data? && (e.outcome.Count? ==> c.outpos + e.outcome.n <= |c.outbuf|))
  {
    ReachableInv(handle, s);
    assert ConnOk(handle, s.conns[e.op.fd], s.accepted);
  }

  /** A receive that fails, or fills the buffer without a line end, ends its connection. */
  lemma RecvClosesIff(handle: Handler, s: Server, e: Completion)
    requires e.op.Recv? && e.op.fd in s.conns
    requires !e.outcome.Count? && !e.outcome.Opened?
    ensures
      var (fd, c, t) := (e.op.fd, s.conns[e.op.fd], Complete(handle, s, e));
      && (fd !in t.conns <==> e.outcome.Failed? || (|c.inbuf + e.outcome.bytes| >= 511 && '\n' !in c.inbuf + e.outcome.bytes))
      && (fd in t.conns || (t.flight == s.flight - multiset{e.op} && |t.closed| == |s.closed| + 1))
      && t.conns - {fd} == s.conns - {fd}
  {
    var (fd, t) := (e.op.fd, Complete(handle, s, e));
    if fd in t.conns {
      assert t.conns == s.conns[fd := t.conns[fd]];
    } else {
      assert t.conns == s.conns - {fd};
    }
  }

  /** A send that fails ends its connection. */
  lemma SendClosesIff(handle: Handler, s: Server, e: Completion)
    requires e.op.Send? && e.op.fd in s.conns
    requires e.outcome.Failed? || (e.outcome.Count? && s.conns[e.op.fd].outpos + e.outcome.n <= |s.conns[e.op.fd].outbuf|)
    ensures
      var (fd, t) := (e.op.fd, Complete(handle, s, e));
      && (fd !in t.conns <==> e.outcome.Failed?)
      && (fd in t.conns || (t.flight == s.flight - multiset{e.op} && |t.closed| == |s.closed| + 1))
      && t.conns - {fd} == s.conns - {fd}
  {
    var (fd, t) := (e.op.fd, Complete(handle, s, e));
    if fd in t.conns {
      assert t.conns == s.conns[fd := t.conns[fd]];
    }
  }

  /** A connection ends exactly if its operation failed or 511 bytes hold no line end.  Nothing
      follows then, and no other connection is touched either way. */
  lemma ClosesIff(handle: Handler, s: Server, e: Completion)
    requires Answers(handle) && Reachable(handle, s) && Enabled(s, e) && !e.op.Accept?
    ensures e.op.fd in s.conns
    ensures
      var (fd, t) := (e.op.fd, Complete(handle, s, e));
      var held := s.conns[fd].inbuf + (if e.outcome.Data? then e.outcome.bytes else "");
      && (fd !in t.conns <==> e.outcome.Failed? || (e.outcome.Data? && |held| == 511 && '\n' !in held))
      && (fd in t.conns || (t.flight == s.flight - multiset{e.op} && |t.closed| == |s.closed| + 1))
      && t.conns - {fd} == s.conns - {fd}
  {
    OperationFits(handle, s, e);
    if e.op.Recv? { RecvClosesIff(handle, s, e); } else { SendClosesIff(handle, s, e); }
  }

  /** Bytes that complete a line: exactly the first line is handled, as the connection's next
      request, and its response is on its way from the beginning. */
  lemma LineIsAnswered(handle: Handler, s: Server, e: Completion, line: string, text: string, rest: string)
    requires Answers(handle) && Reachable(handle, s) && Enabled(s, e) && e.outcome.Data?
    requires e.op.fd in s.conns && s.conns[e.op.fd].inbuf + e.outcome.bytes == line + "\n" + rest
    requires '\n' !in line && TextOfCString(line, text)
    ensures
      var (fd, c, t) := (e.op.fd, s.conns[e.op.fd], Complete(handle, s, e));
      var response := handle(c.serial, |c.lines|, text);
      && t.conns == s.conns[fd := Conn(c.serial, rest, response, 0, c.received + e.outcome.bytes, c.lines + [line], c.sent)]
      && t.flight == s.flight - multiset{e.op} + multiset{Send(fd, c.serial, |response|)}
      && t.closed == s.closed
  {
    var c := s.conns[e.op.fd];
    AnsweredMeaning(handle, Buffered(c, e.outcome.bytes), line, text, rest);
  }

  /** Bytes that complete no line are kept, and more are asked for while there is room. */
  lemma PartOfLineWaits(handle: Handler, s: Server, e: Completion)
    requires Answers(handle) && Reachable(handle, s) && Enabled(s, e) && e.outcome.Data?
    requires e.op.fd in s.conns && '\n' !in s.conns[e.op.fd].inbuf + e.outcome.bytes
    requires |s.conns[e.op.fd].inbuf + e.outcome.bytes| < 511
    ensures
      var (fd, c, t) := (e.op.fd, s.conns[e.op.fd], Complete(handle, s, e));
      var held := c.inbuf + e.outcome.bytes;
      && t.conns == s.conns[fd := c.(inbuf := held, received := c.received + e.outcome.bytes)]
      && t.flight == s.flight - multiset{e.op} + multiset{Recv(fd, c.serial, 511 - |held|)}
      && t.closed == s.closed
  {
  }

  /** A send is followed by the send of the rest, or, once the response is out, by a receive. */
  lemma SendContinues(handle: Handler, s: Server, e: Completion)
    requires Answers(handle) && Reachable(handle, s) && Enabled(s, e) && e.outcome.Count?
    ensures e.op.fd in s.conns && s.conns[e.op.fd].outpos + e.outcome.n <= |s.conns[e.op.fd].outbuf|
    ensures
      var (fd, c, t) := (e.op.fd, s.conns[e.op.fd], Complete(handle, s, e));
      var (now, rest) := (c.outbuf[c.outpos..c.outpos + e.outcome.n], c.outbuf[c.outpos + e.outcome.n..]);
      && fd in t.conns && t.conns[fd].sent == c.sent + now
      && t.conns[fd].outpos <= |t.conns[fd].outbuf| && t.conns[fd].outbuf[t.conns[fd].outpos..] == rest
      && t.conns[fd].(outbuf := "", outpos := 0, sent := "") == c.(outbuf := "", outpos := 0, sent := "")
      && t.flight == s.flight - multiset{e.op}
           + multiset{if rest == "" then Recv(fd, c.serial, 511 - |c.inbuf|) else Send(fd, c.serial, |rest|)}
      && t.closed == s.closed
  {
    OperationFits(handle, s, e);
    AdvancedMeaning(s.conns[e.op.fd], e.outcome.n);
  }
}
