/** The io_uring query server of src/query_server_uring.cpp as a machine over completions.

    The kernel is free to complete any operation in flight, in any order, with any outcome it
    may give: accept never yields a descriptor that is still open, recv and send transfer at
    least one byte and at most what was asked for, and each may fail. */
module UringServer {
  import opened QueryConnection

  // ----- user data -----

  const TWO32 := 0x1_0000_0000
  type Fd = n: int | -0x8000_0000 <= n < 0x8000_0000

  datatype Kind = ACCEPT | RECV | SEND

  function Code(k: Kind): nat { match k case ACCEPT => 0 case RECV => 1 case SEND => 2 }

  /** The descriptor as 32 bits below, the operation above; the bits are disjoint. */
  function EncodeUserData(fd: Fd, k: Kind): nat {
    (if fd < 0 then fd + TWO32 else fd) + Code(k) * TWO32
  }

  function DecodeUserData(ud: nat): (int, nat) {
    var low := ud % TWO32;
    (if low < 0x8000_0000 then low else low - TWO32, ud / TWO32 % 256)
  }

  lemma UserDataRoundTrip(fd: Fd, k: Kind)
    ensures DecodeUserData(EncodeUserData(fd, k)) == (fd as int, Code(k))
  {
    var low := if fd < 0 then fd + TWO32 else fd;
    assert (low + Code(k) * TWO32) % TWO32 == low;
    assert (low + Code(k) * TWO32) / TWO32 == Code(k);
  }

  // ----- the machine -----

  /** An operation in flight.  `serial` names the connection it was submitted for. */
  datatype Op = Accept | Recv(fd: nat, serial: nat, room: int) | Send(fd: nat, serial: nat, length: int)

  datatype Outcome = Failed | Opened(fd: nat) | Data(bytes: string) | Count(n: nat)

  datatype Completion = Completion(op: Op, outcome: Outcome)

  /** `accepted` counts the connections so far, `closed` keeps those that are gone. */
  datatype Server = Server(conns: map<nat, Conn>, flight: multiset<Op>, accepted: nat, closed: seq<Conn>)

  function Started(): Server { Server(map[], multiset{Accept}, 0, []) }

  /** submit_recv and submit_send for a connection. */
  function RecvOp(fd: nat, c: Conn): Op { Recv(fd, c.serial, INBUF_SIZE - |c.inbuf| - 1) }

  function SendOp(fd: nat, c: Conn): Op { Send(fd, c.serial, |c.outbuf| - c.outpos) }

  predicate Enabled(s: Server, e: Completion) {
    && e.op in s.flight
    && match e.outcome
       case Failed => true
       case Opened(fd) => e.op.Accept? && fd !in s.conns
       case Data(bytes) => e.op.Recv? && 1 <= |bytes| <= e.op.room
       case Count(n) => e.op.Send? && 1 <= n <= e.op.length
  }

  /** conns[fd], which the source creates when it is missing. */
  function ConnAt(s: Server, fd: nat): Conn {
    if fd in s.conns then s.conns[fd] else NewConn(s.accepted)
  }

  function Taken(s: Server, op: Op): Server { s.(flight := s.flight - multiset{op}) }

  function Resumed(s: Server, fd: nat, c: Conn, op: Op): Server {
    s.(conns := s.conns[fd := c], flight := s.flight + multiset{op})
  }

  function Closed(s: Server, fd: nat, c: Conn): Server {
    s.(conns := s.conns - {fd}, closed := s.closed + [c])
  }

  function OnAccept(s: Server, outcome: Outcome): Server {
    var armed := s.(flight := s.flight + multiset{Accept});
    if outcome.Opened?
    then
      var c := ConnAt(s, outcome.fd);
      Resumed(armed, outcome.fd, c, RecvOp(outcome.fd, c)).(accepted := s.accepted + 1)
    else armed
  }

  function OnRecv(handle: Handler, s: Server, fd: nat, outcome: Outcome): Server {
    var c := ConnAt(s, fd);
    if !outcome.Data? then Closed(s, fd, c)
    else
      var b := Buffered(c, outcome.bytes);
      if HasLine(b) then
        var a := Answered(handle, b);
        Resumed(s, fd, a, SendOp(fd, a))
      else if |b.inbuf| >= INBUF_SIZE - 1 then Closed(s, fd, b)
      else Resumed(s, fd, b, RecvOp(fd, b))
  }

  function OnSend(s: Server, fd: nat, outcome: Outcome): Server {
    var c := ConnAt(s, fd);
    if !outcome.Count? || c.outpos + outcome.n > |c.outbuf| then Closed(s, fd, c)
    else
      var a := Advanced(c, outcome.n);
      Resumed(s, fd, a, if Unsent(a) then SendOp(fd, a) else RecvOp(fd, a))
  }

  function Complete(handle: Handler, s: Server, e: Completion): Server {
    var t := Taken(s, e.op);
    match e.op
    case Accept => OnAccept(t, e.outcome)
    case Recv(fd, _, _) => OnRecv(handle, t, fd, e.outcome)
    case Send(fd, _, _) => OnSend(t, fd, e.outcome)
  }

  /** A run; a completion that is not enabled does not occur. */
  function Run(handle: Handler, s: Server, events: seq<Completion>): Server
    decreases |events|
  {
    if events == [] then s
    else Run(handle, if Enabled(s, events[0]) then Complete(handle, s, events[0]) else s, events[1..])
  }

  ghost predicate Reachable(handle: Handler, s: Server) {
    exists events: seq<Completion> :: s == Run(handle, Started(), events)
  }

  /** Every response has at least its closing line end. */
  ghost predicate Answers(handle: Handler) { forall serial: nat, k: nat, line: string :: handle(serial, k, line) != "" }

  // ----- one operation in flight per connection -----

  /** The operation a connection must have in flight. */
  function Expected(fd: nat, c: Conn): Op { if Unsent(c) then SendOp(fd, c) else RecvOp(fd, c) }

  ghost predicate OneEach(conns: map<nat, Conn>, flight: multiset<Op>) {
    && flight[Accept] == 1
    && (forall op: Op :: op in flight && !op.Accept? ==> op.fd in conns && op == Expected(op.fd, conns[op.fd]))
    && forall fd: nat :: fd in conns ==> flight[Expected(fd, conns[fd])] == 1
  }

  lemma Replaces(conns: map<nat, Conn>, flight: multiset<Op>, fd: nat, c: Conn)
    requires OneEach(conns, flight) && fd in conns
    ensures OneEach(conns[fd := c], flight - multiset{Expected(fd, conns[fd])} + multiset{Expected(fd, c)})
  {
  }

  lemma Removes(conns: map<nat, Conn>, flight: multiset<Op>, fd: nat)
    requires OneEach(conns, flight) && fd in conns
    ensures OneEach(conns - {fd}, flight - multiset{Expected(fd, conns[fd])})
  {
  }

  lemma Adds(conns: map<nat, Conn>, flight: multiset<Op>, fd: nat, c: Conn)
    requires OneEach(conns, flight) && fd !in conns
    ensures OneEach(conns[fd := c], flight - multiset{Accept} + multiset{Accept} + multiset{Expected(fd, c)})
  {
    assert flight - multiset{Accept} + multiset{Accept} == flight;
    assert flight[Expected(fd, c)] == 0;
  }

  // ----- what every completion keeps -----

  predicate ConnOk(handle: Handler, c: Conn, accepted: nat) {
    Streams(handle, c) && |c.inbuf| < INBUF_SIZE - 1 && c.serial < accepted
  }

  /** Connections are told apart by their serials, closed ones included. */
  ghost predicate SerialsDiffer(s: Server) {
    && (forall fd: nat, gd: nat :: fd in s.conns && gd in s.conns && s.conns[fd].serial == s.conns[gd].serial ==> fd == gd)
    && forall fd: nat, c: Conn :: fd in s.conns && c in s.closed ==> s.conns[fd].serial != c.serial
  }

  ghost predicate ConnsOk(handle: Handler, s: Server) {
    && (forall fd: nat :: fd in s.conns ==> ConnOk(handle, s.conns[fd], s.accepted))
    && forall c: Conn :: c in s.closed ==> ClosedOk(handle, c, s.accepted)
  }

  predicate ClosedOk(handle: Handler, c: Conn, accepted: nat) {
    Streams(handle, c) && |c.inbuf| < INBUF_SIZE && c.serial < accepted
  }

  ghost predicate Inv(handle: Handler, s: Server) {
    OneEach(s.conns, s.flight) && ConnsOk(handle, s) && SerialsDiffer(s)
  }

  lemma SerialsAfterOpen(handle: Handler, s: Server, t: Server, fd: nat)
    requires ConnsOk(handle, s) && SerialsDiffer(s)
    requires t.conns == s.conns[fd := NewConn(s.accepted)] && t.closed == s.closed
    ensures SerialsDiffer(t)
  {
    forall gd: nat | gd in s.conns
      ensures s.conns[gd].serial < s.accepted
    {
      assert ConnOk(handle, s.conns[gd], s.accepted);
    }
    forall c: Conn | c in s.closed
      ensures c.serial < s.accepted
    {
      assert ClosedOk(handle, c, s.accepted);
    }
  }

  lemma SerialsAfterResume(s: Server, t: Server, fd: nat, c: Conn)
    requires SerialsDiffer(s) && fd in s.conns && c.serial == s.conns[fd].serial
    requires t.conns == s.conns[fd := c] && t.closed == s.closed
    ensures SerialsDiffer(t)
  {
  }

  lemma SerialsAfterClose(s: Server, t: Server, fd: nat, c: Conn)
    requires SerialsDiffer(s) && fd in s.conns && c.serial == s.conns[fd].serial
    requires t.conns == s.conns - {fd} && t.closed == s.closed + [c]
    ensures SerialsDiffer(t)
  {
  }

  lemma ConnsAfterOpen(handle: Handler, s: Server, t: Server, fd: nat)
    requires ConnsOk(handle, s) && t.accepted == s.accepted + 1
    requires t.conns == s.conns[fd := NewConn(s.accepted)] && t.closed == s.closed
    ensures ConnsOk(handle, t)
  {
    NewStreams(handle, s.accepted);
    forall gd: nat | gd in t.conns
      ensures ConnOk(handle, t.conns[gd], t.accepted)
    {
      assert gd != fd ==> ConnOk(handle, s.conns[gd], s.accepted);
    }
    forall c: Conn | c in t.closed
      ensures ClosedOk(handle, c, t.accepted)
    {
      assert ClosedOk(handle, c, s.accepted);
    }
  }

  lemma ConnsAfterClose(handle: Handler, s: Server, t: Server, fd: nat, c: Conn)
    requires ConnsOk(handle, s) && ClosedOk(handle, c, s.accepted) && t.accepted == s.accepted
    requires t.conns == s.conns - {fd} && t.closed == s.closed + [c]
    ensures ConnsOk(handle, t)
  {
    forall d: Conn | d in t.closed
      ensures ClosedOk(handle, d, t.accepted)
    {
      assert d in s.closed || d == c;
    }
  }

  lemma AcceptKeeps(handle: Handler, s: Server, e: Completion)
    requires Inv(handle, s) && Enabled(s, e) && e.op.Accept?
    ensures Inv(handle, Complete(handle, s, e))
  {
    var t := Complete(handle, s, e);
    if e.outcome.Opened? {
      Adds(s.conns, s.flight, e.outcome.fd, NewConn(s.accepted));
      ConnsAfterOpen(handle, s, t, e.outcome.fd);
      SerialsAfterOpen(handle, s, t, e.outcome.fd);
    } else {
      assert s.flight - multiset{Accept} + multiset{Accept} == s.flight;
    }
  }

  lemma ResumeKeeps(handle: Handler, s: Server, fd: nat, c: Conn)
    requires Inv(handle, s) && fd in s.conns && ConnOk(handle, c, s.accepted) && c.serial == s.conns[fd].serial
    ensures Inv(handle, Resumed(Taken(s, Expected(fd, s.conns[fd])), fd, c, Expected(fd, c)))
  {
    Replaces(s.conns, s.flight, fd, c);
    SerialsAfterResume(s, Resumed(Taken(s, Expected(fd, s.conns[fd])), fd, c, Expected(fd, c)), fd, c);
  }

  lemma CloseKeeps(handle: Handler, s: Server, fd: nat, c: Conn)
    requires Inv(handle, s) && fd in s.conns && ClosedOk(handle, c, s.accepted) && c.serial == s.conns[fd].serial
    ensures Inv(handle, Closed(Taken(s, Expected(fd, s.conns[fd])), fd, c))
  {
    var t := Closed(Taken(s, Expected(fd, s.conns[fd])), fd, c);
    Removes(s.conns, s.flight, fd);
    ConnsAfterClose(handle, s, t, fd, c);
    SerialsAfterClose(s, t, fd, c);
  }

  lemma RecvKeeps(handle: Handler, s: Server, e: Completion)
    requires Answers(handle) && Inv(handle, s) && Enabled(s, e) && e.op.Recv?
    ensures Inv(handle, Complete(handle, s, e))
  {
    var fd := e.op.fd;
    var c := s.conns[fd];
    if !e.outcome.Data? {
      CloseKeeps(handle, s, fd, c);
    } else {
      var b := Buffered(c, e.outcome.bytes);
      BufferedStreams(handle, c, e.outcome.bytes);
      if HasLine(b) {
        AnsweredStreams(handle, b);
        ResumeKeeps(handle, s, fd, Answered(handle, b));
      } else if |b.inbuf| >= INBUF_SIZE - 1 {
        CloseKeeps(handle, s, fd, b);
      } else {
        ResumeKeeps(handle, s, fd, b);
      }
    }
  }

  lemma SendKeeps(handle: Handler, s: Server, e: Completion)
    requires Inv(handle, s) && Enabled(s, e) && e.op.Send?
    ensures Inv(handle, Complete(handle, s, e))
  {
    var fd := e.op.fd;
    var c := s.conns[fd];
    if !e.outcome.Count? {
      CloseKeeps(handle, s, fd, c);
    } else {
      AdvancedStreams(handle, c, e.outcome.n);
      ResumeKeeps(handle, s, fd, Advanced(c, e.outcome.n));
    }
  }

  lemma CompleteKeeps(handle: Handler, s: Server, e: Completion)
    requires Answers(handle) && Inv(handle, s) && Enabled(s, e)
    ensures Inv(handle, Complete(handle, s, e))
    ensures !e.op.Accept? ==> e.op.fd in s.conns
    ensures e.outcome.Count? ==> s.conns[e.op.fd].outpos + e.outcome.n <= |s.conns[e.op.fd].outbuf|
  {
    match e.op
    case Accept => AcceptKeeps(handle, s, e);
    case Recv(_, _, _) => RecvKeeps(handle, s, e);
    case Send(_, _, _) => SendKeeps(handle, s, e);
  }

  lemma {:induction false} RunKeeps(handle: Handler, s: Server, events: seq<Completion>)
    requires Answers(handle) && Inv(handle, s)
    ensures Inv(handle, Run(handle, s, events))
    decreases |events|
  {
    if events != [] {
      var e := events[0];
      if Enabled(s, e) { CompleteKeeps(handle, s, e); }
      RunKeeps(handle, if Enabled(s, e) then Complete(handle, s, e) else s, events[1..]);
    }
  }

  lemma ReachableInv(handle: Handler, s: Server)
    requires Answers(handle) && Reachable(handle, s)
    ensures Inv(handle, s)
  {
    var events :| s == Run(handle, Started(), events);
    RunKeeps(handle, Started(), events);
  }

  // ----- main results -----

  /** Whatever completes in whatever order: one ACCEPT is in flight, each open connection has
      exactly one operation in flight, a SEND of what is unsent if there is unsent output and
      otherwise a RECV with room for at least one byte, and nothing else is in flight. */
  lemma OneOperationEach(handle: Handler, s: Server)
    requires Answers(handle) && Reachable(handle, s)
    ensures s.flight[Accept] == 1
    ensures forall fd: nat :: fd in s.conns ==>
              var c := s.conns[fd];
              s.flight[if Unsent(c) then SendOp(fd, c) else RecvOp(fd, c)] == 1 && RecvOp(fd, c).room >= 1
    ensures forall op: Op :: op in s.flight && !op.Accept? ==>
              op.fd in s.conns && op == if Unsent(s.conns[op.fd]) then SendOp(op.fd, s.conns[op.fd]) else RecvOp(op.fd, s.conns[op.fd])
  {
    ReachableInv(handle, s);
    forall fd: nat | fd in s.conns
      ensures s.flight[Expected(fd, s.conns[fd])] == 1 && RecvOp(fd, s.conns[fd]).room >= 1
    {
      assert ConnOk(handle, s.conns[fd], s.accepted);
    }
  }

  /** A completion is known to the server only by its descriptor.  The connection open under
      that descriptor is the one the operation was submitted for, and no other connection, open
      or closed, was ever the same one. */
  lemma CompletionFindsItsConnection(handle: Handler, s: Server, e: Completion)
    requires Answers(handle) && Reachable(handle, s) && Enabled(s, e) && !e.op.Accept?
    ensures e.op.fd in s.conns && s.conns[e.op.fd].serial == e.op.serial
    ensures forall fd: nat :: fd in s.conns && fd != e.op.fd ==> s.conns[fd].serial != e.op.serial
    ensures forall c: Conn :: c in s.closed ==> c.serial != e.op.serial
  {
    ReachableInv(handle, s);
  }

  /** For any fragmentation and any partial sends, on every connection open or closed: lines
      handled and buffer make up the bytes received, bytes sent and unsent make up the
      responses, and the buffer stays within its array. */
  lemma ConnectionsStream(handle: Handler, s: Server, c: Conn)
    requires Answers(handle) && Reachable(handle, s)
    requires c in s.closed || exists fd: nat :: fd in s.conns && s.conns[fd] == c
    ensures Streams(handle, c) && |c.inbuf| <= 511
    ensures c.lines <= LinesOf(c.received)
    ensures NUL !in c.received ==> c.sent + c.outbuf[c.outpos..] == PlainResponses(handle, c.serial, c.lines)
  {
    ReachableInv(handle, s);
    if c in s.closed {
      assert ClosedOk(handle, c, s.accepted);
    } else {
      var fd: nat :| fd in s.conns && s.conns[fd] == c;
      assert ConnOk(handle, s.conns[fd], s.accepted);
    }
    HandledAreTheFirstLines(handle, c);
    if NUL !in c.received { AnswersInOrder(handle, c); }
  }

  // ----- the server itself -----

  /** The completion loop, with connections and submissions updated in place. */
  class IoUringQueryServer {
    const handle: Handler
    var conns: map<nat, Conn>
    var flight: multiset<Op>
    var accepted: nat
    var closed: seq<Conn>

    function State(): Server
      reads this
    {
      Server(conns, flight, accepted, closed)
    }

    constructor (handle: Handler)
      ensures State() == Started() && this.handle == handle
    {
      this.handle := handle;
      conns, flight, accepted, closed := map[], multiset{Accept}, 0, [];
    }

    method SubmitRecv(fd: nat)
      requires fd in conns
      modifies this`flight
      ensures flight == old(flight) + multiset{RecvOp(fd, conns[fd])}
    {
      flight := flight + multiset{RecvOp(fd, conns[fd])};
    }

    method SubmitSend(fd: nat)
      requires fd in conns
      modifies this`flight
      ensures flight == old(flight) + multiset{SendOp(fd, conns[fd])}
    {
      flight := flight + multiset{SendOp(fd, conns[fd])};
    }

    method Close(fd: nat)
      requires fd in conns
      modifies this
      ensures State() == Closed(old(State()), fd, old(conns[fd]))
    {
      closed := closed + [conns[fd]];
      conns := conns - {fd};
    }

    method HandleAccept(outcome: Outcome)
      requires outcome.Opened? ==> outcome.fd !in conns
      modifies this
      ensures State() == OnAccept(old(State()), outcome)
    {
      flight := flight + multiset{Accept};
      if outcome.Opened? {
        conns := conns[outcome.fd := NewConn(accepted)];
        accepted := accepted + 1;
        SubmitRecv(outcome.fd);
      }
    }

    method HandleRecv(fd: nat, outcome: Outcome)
      requires fd in conns
      modifies this
      ensures State() == OnRecv(handle, old(State()), fd, outcome)
    {
      if !outcome.Data? {
        Close(fd);
        return;
      }
      var c := Buffered(conns[fd], outcome.bytes);
      if HasLine(c) {
        conns := conns[fd := Answered(handle, c)];
        SubmitSend(fd);
      } else {
        conns := conns[fd := c];
        if |c.inbuf| >= INBUF_SIZE - 1 { Close(fd); } else { SubmitRecv(fd); }
      }
    }

    method HandleSend(fd: nat, outcome: Outcome)
      requires fd in conns && (outcome.Count? ==> conns[fd].outpos + outcome.n <= |conns[fd].outbuf|)
      modifies this
      ensures State() == OnSend(old(State()), fd, outcome)
    {
      if !outcome.Count? {
        Close(fd);
        return;
      }
      conns := conns[fd := Advanced(conns[fd], outcome.n)];
      if Unsent(conns[fd]) { SubmitSend(fd); } else { SubmitRecv(fd); }
    }

    method ProcessCompletion(e: Completion)
      requires Answers(handle) && Inv(handle, State()) && Enabled(State(), e)
      modifies this
      ensures State() == Complete(handle, old(State()), e) && Inv(handle, State())
    {
      CompleteKeeps(handle, State(), e);
      flight := flight - multiset{e.op};
      match e.op
      case Accept => HandleAccept(e.outcome);
      case Recv(fd, _, _) => HandleRecv(fd, e.outcome);
      case Send(fd, _, _) => HandleSend(fd, e.outcome);
    }

    /** Any schedule of completions, processed in place, is a run of the machine. */
    method ServeLoop(events: seq<Completion>)
      requires Answers(handle) && Inv(handle, State())
      modifies this
      ensures State() == Run(handle, old(State()), events) && Inv(handle, State())
    {
      ghost var start := State();
      for i := 0 to |events|
        invariant Inv(handle, State()) && Run(handle, State(), events[i..]) == Run(handle, start, events)
      {
        if Enabled(State(), events[i]) { ProcessCompletion(events[i]); }
        assert events[i..][1..] == events[i + 1..];
      }
    }
  }
}
