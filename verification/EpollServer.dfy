/** The epoll query server of src/query_server_epoll.cpp: non-blocking sockets, a READING and a
    WRITING state per connection, and inner loops that call recv and send until they would block.

    What the calls return is given with each event.  A call transfers at most what it is asked
    for; a list that runs out means EAGAIN. */
module EpollServer {
  import opened QueryConnection

  /** Bytes("") is end of file. */
  datatype RecvResult = Bytes(data: string) | RecvAgain | RecvError

  datatype SendResult = Wrote(n: nat) | SendAgain | SendError

  datatype Peer = Peer(conn: Conn, writing: bool)

  datatype Event =
    | Incoming(fds: seq<nat>)
    | Ready(fd: nat, hangup: bool, readable: bool, writable: bool, recvs: seq<RecvResult>, sends: seq<SendResult>)

  datatype Server = Server(peers: map<nat, Peer>, accepted: nat, closed: seq<Conn>)

  /** Where a loop leaves the connection; `open` says whether it survives. */
  datatype Left = Left(peer: Peer, open: bool)

  function Clip(n: nat, most: nat): nat { if n < most then n else most }

  // ----- the inner loops -----

  function ReadLoop(handle: Handler, c: Conn, recvs: seq<RecvResult>): Left
    decreases |recvs|
  {
    if |c.inbuf| >= INBUF_SIZE - 1 then Left(Peer(c, false), false)
    else if recvs == [] || recvs[0].RecvAgain? then Left(Peer(c, false), true)
    else if recvs[0].RecvError? || recvs[0].data == "" then Left(Peer(c, false), false)
    else
      var data := recvs[0].data;
      var b := Buffered(c, data[..Clip(|data|, INBUF_SIZE - |c.inbuf| - 1)]);
      if HasLine(b) then Left(Peer(Answered(handle, b), true), true) else ReadLoop(handle, b, recvs[1..])
  }

  function WriteLoop(c: Conn, sends: seq<SendResult>): Left
    decreases |sends|
  {
    if !Unsent(c) then Left(Peer(c.(outbuf := "", outpos := 0), false), true)
    else if sends == [] || sends[0].SendAgain? then Left(Peer(c, true), true)
    else if sends[0].SendError? then Left(Peer(c, true), false)
    else WriteLoop(Advanced(c, Clip(sends[0].n, |c.outbuf| - c.outpos)), sends[1..])
  }

  function Handled(handle: Handler, p: Peer, e: Event): Left
    requires e.Ready?
  {
    if e.hangup then Left(p, false)
    else
      var read := if !p.writing && e.readable then ReadLoop(handle, p.conn, e.recvs) else Left(p, true);
      if read.open && read.peer.writing && e.writable then WriteLoop(read.peer.conn, e.sends) else read
  }

  // ----- the server -----

  function Accepted(s: Server, fds: seq<nat>): Server {
    if fds == [] then s
    else
      var before := Accepted(s, fds[..|fds| - 1]);
      var fd := fds[|fds| - 1];
      if fd in before.peers then before
      else before.(peers := before.peers[fd := Peer(NewConn(before.accepted), false)], accepted := before.accepted + 1)
  }

  function Settled(s: Server, fd: nat, left: Left): Server {
    if left.open then s.(peers := s.peers[fd := left.peer])
    else s.(peers := s.peers - {fd}, closed := s.closed + [left.peer.conn])
  }

  /** The kernel accepts no descriptor that is still open. */
  function Step(handle: Handler, s: Server, e: Event): Server {
    match e
    case Incoming(fds) => Accepted(s, fds)
    case Ready(fd, _, _, _, _, _) => if fd in s.peers then Settled(s, fd, Handled(handle, s.peers[fd], e)) else s
  }

  function Run(handle: Handler, s: Server, events: seq<Event>): Server
    decreases |events|
  {
    if events == [] then s else Run(handle, Step(handle, s, events[0]), events[1..])
  }

  ghost predicate Reachable(handle: Handler, s: Server) {
    exists events: seq<Event> :: s == Run(handle, Server(map[], 0, []), events)
  }

  // ----- what every event keeps -----

  /** A connection in READING has nothing unsent, and room for a byte. */
  predicate PeerOk(handle: Handler, p: Peer) {
    Streams(handle, p.conn) && |p.conn.inbuf| < INBUF_SIZE - 1 && (Unsent(p.conn) ==> p.writing)
  }

  predicate LeftOk(handle: Handler, left: Left) {
    if left.open then PeerOk(handle, left.peer)
    else Streams(handle, left.peer.conn) && |left.peer.conn.inbuf| < INBUF_SIZE
  }

  lemma {:induction false} ReadKeeps(handle: Handler, c: Conn, recvs: seq<RecvResult>)
    requires Streams(handle, c) && |c.inbuf| < INBUF_SIZE && !Unsent(c)
    ensures LeftOk(handle, ReadLoop(handle, c, recvs))
    decreases |recvs|
  {
    if |c.inbuf| < INBUF_SIZE - 1 && recvs != [] && recvs[0].Bytes? && recvs[0].data != "" {
      var data := recvs[0].data;
      var taken := data[..Clip(|data|, INBUF_SIZE - |c.inbuf| - 1)];
      var b := Buffered(c, taken);
      BufferedStreams(handle, c, taken);
      if HasLine(b) {
        AnsweredStreams(handle, b);
      } else {
        ReadKeeps(handle, b, recvs[1..]);
      }
    }
  }

  lemma DroppedStreams(handle: Handler, c: Conn)
    requires Streams(handle, c) && !Unsent(c)
    ensures Streams(handle, c.(outbuf := "", outpos := 0))
  {
    assert c.outbuf[c.outpos..] == "";
  }

  lemma {:induction false} WriteKeeps(handle: Handler, c: Conn, sends: seq<SendResult>)
    requires Streams(handle, c) && |c.inbuf| < INBUF_SIZE - 1
    ensures LeftOk(handle, WriteLoop(c, sends))
    decreases |sends|
  {
    if !Unsent(c) {
      DroppedStreams(handle, c);
    } else if sends != [] && sends[0].Wrote? {
      var n := Clip(sends[0].n, |c.outbuf| - c.outpos);
      AdvancedStreams(handle, c, n);
      WriteKeeps(handle, Advanced(c, n), sends[1..]);
    }
  }

  lemma HandledKeeps(handle: Handler, p: Peer, e: Event)
    requires PeerOk(handle, p) && e.Ready?
    ensures LeftOk(handle, Handled(handle, p, e))
  {
    if !e.hangup {
      var read := if !p.writing && e.readable then ReadLoop(handle, p.conn, e.recvs) else Left(p, true);
      if !p.writing && e.readable { ReadKeeps(handle, p.conn, e.recvs); }
      if read.open && read.peer.writing && e.writable { WriteKeeps(handle, read.peer.conn, e.sends); }
    }
  }

  ghost predicate Inv(handle: Handler, s: Server) {
    && (forall fd: nat :: fd in s.peers ==> PeerOk(handle, s.peers[fd]))
    && forall c: Conn :: c in s.closed ==> Streams(handle, c) && |c.inbuf| < INBUF_SIZE
  }

  lemma {:induction false} AcceptedKeeps(handle: Handler, s: Server, fds: seq<nat>)
    requires Inv(handle, s)
    ensures Inv(handle, Accepted(s, fds))
  {
    if fds != [] {
      AcceptedKeeps(handle, s, fds[..|fds| - 1]);
      NewStreams(handle, Accepted(s, fds[..|fds| - 1]).accepted);
    }
  }

  lemma StepKeeps(handle: Handler, s: Server, e: Event)
    requires Inv(handle, s)
    ensures Inv(handle, Step(handle, s, e))
  {
    match e
    case Incoming(fds) => AcceptedKeeps(handle, s, fds);
    case Ready(fd, _, _, _, _, _) => if fd in s.peers { HandledKeeps(handle, s.peers[fd], e); }
  }

  lemma {:induction false} RunKeeps(handle: Handler, s: Server, events: seq<Event>)
    requires Inv(handle, s)
    ensures Inv(handle, Run(handle, s, events))
    decreases |events|
  {
    if events != [] {
      StepKeeps(handle, s, events[0]);
      RunKeeps(handle, Step(handle, s, events[0]), events[1..]);
    }
  }

  // ----- serials -----

  lemma {:induction false} ReadKeepsSerial(handle: Handler, c: Conn, recvs: seq<RecvResult>)
    ensures ReadLoop(handle, c, recvs).peer.conn.serial == c.serial
    decreases |recvs|
  {
    if |c.inbuf| < INBUF_SIZE - 1 && recvs != [] && recvs[0].Bytes? && recvs[0].data != "" {
      var data := recvs[0].data;
      var b := Buffered(c, data[..Clip(|data|, INBUF_SIZE - |c.inbuf| - 1)]);
      if !HasLine(b) { ReadKeepsSerial(handle, b, recvs[1..]); }
    }
  }

  lemma {:induction false} WriteKeepsSerial(c: Conn, sends: seq<SendResult>)
    ensures WriteLoop(c, sends).peer.conn.serial == c.serial
    decreases |sends|
  {
    if Unsent(c) && sends != [] && sends[0].Wrote? {
      WriteKeepsSerial(Advanced(c, Clip(sends[0].n, |c.outbuf| - c.outpos)), sends[1..]);
    }
  }

  lemma HandledKeepsSerial(handle: Handler, p: Peer, e: Event)
    requires e.Ready?
    ensures Handled(handle, p, e).peer.conn.serial == p.conn.serial
  {
    ReadKeepsSerial(handle, p.conn, e.recvs);
    var read := if !p.writing && e.readable then ReadLoop(handle, p.conn, e.recvs) else Left(p, true);
    WriteKeepsSerial(read.peer.conn, e.sends);
  }

  /** Connections are told apart by their serials, closed ones included. */
  ghost predicate SerialsDiffer(s: Server) {
    && (forall fd: nat :: fd in s.peers ==> s.peers[fd].conn.serial < s.accepted)
    && (forall c: Conn :: c in s.closed ==> c.serial < s.accepted)
    && (forall fd: nat, gd: nat :: fd in s.peers && gd in s.peers && s.peers[fd].conn.serial == s.peers[gd].conn.serial ==> fd == gd)
    && forall fd: nat, c: Conn :: fd in s.peers && c in s.closed ==> s.peers[fd].conn.serial != c.serial
  }

  lemma {:induction false} AcceptedDiffer(s: Server, fds: seq<nat>)
    requires SerialsDiffer(s)
    ensures SerialsDiffer(Accepted(s, fds))
  {
    if fds != [] { AcceptedDiffer(s, fds[..|fds| - 1]); }
  }

  lemma SettledDiffer(s: Server, fd: nat, left: Left)
    requires SerialsDiffer(s) && fd in s.peers && left.peer.conn.serial == s.peers[fd].conn.serial
    ensures SerialsDiffer(Settled(s, fd, left))
  {
  }

  /** Every accepted connection has a serial of its own, in every run. */
  lemma {:induction false} RunKeepsSerials(handle: Handler, s: Server, events: seq<Event>)
    requires SerialsDiffer(s)
    ensures SerialsDiffer(Run(handle, s, events))
    decreases |events|
  {
    if events != [] {
      match events[0] {
        case Incoming(fds) => AcceptedDiffer(s, fds);
        case Ready(fd, _, _, _, _, _) =>
          if fd in s.peers {
            HandledKeepsSerial(handle, s.peers[fd], events[0]);
            SettledDiffer(s, fd, Handled(handle, s.peers[fd], events[0]));
          }
      }
      RunKeepsSerials(handle, Step(handle, s, events[0]), events[1..]);
    }
  }

  // ----- main result -----

  /** For any fragmentation, any partial sends and any mixture of readiness events, on every
      connection open or closed: the lines handled are the first lines received, lines and
      buffer make up all bytes received, bytes sent and unsent make up the responses in order,
      and the buffer stays within its array. */
  lemma ConnectionsStream(handle: Handler, s: Server, c: Conn)
    requires Reachable(handle, s)
    requires c in s.closed || exists fd: nat :: fd in s.peers && s.peers[fd].conn == c
    ensures Streams(handle, c) && |c.inbuf| <= 511 && c.lines <= LinesOf(c.received)
    ensures NUL !in c.received ==> c.sent + c.outbuf[c.outpos..] == PlainResponses(handle, c.serial, c.lines)
  {
    var events :| s == Run(handle, Server(map[], 0, []), events);
    RunKeeps(handle, Server(map[], 0, []), events);
    if c !in s.closed {
      var fd: nat :| fd in s.peers && s.peers[fd].conn == c;
      assert PeerOk(handle, s.peers[fd]);
    }
    HandledAreTheFirstLines(handle, c);
    if NUL !in c.received { AnswersInOrder(handle, c); }
  }

  /** A connection in READING has sent every response to the requests it has handled, so
      responses never overtake or overwrite one another. */
  lemma ReadingHasAnswered(handle: Handler, s: Server, fd: nat)
    requires Reachable(handle, s) && fd in s.peers && !s.peers[fd].writing
    ensures s.peers[fd].conn.sent == Responses(handle, s.peers[fd].conn.serial, s.peers[fd].conn.lines)
  {
    var events :| s == Run(handle, Server(map[], 0, []), events);
    RunKeeps(handle, Server(map[], 0, []), events);
    var c := s.peers[fd].conn;
    assert PeerOk(handle, s.peers[fd]);
    assert c.outbuf[c.outpos..] == "";
  }

  // ----- the server itself -----

  class EpollQueryServer {
    const handle: Handler
    var peers: map<nat, Peer>
    var accepted: nat
    var closed: seq<Conn>

    function State(): Server
      reads this
    {
      Server(peers, accepted, closed)
    }

    constructor (handle: Handler)
      ensures State() == Server(map[], 0, []) && this.handle == handle
    {
      this.handle := handle;
      peers, accepted, closed := map[], 0, [];
    }

    method AcceptAll(fds: seq<nat>)
      modifies this
      ensures State() == Accepted(old(State()), fds)
    {
      for i := 0 to |fds|
        invariant State() == Accepted(old(State()), fds[..i])
      {
        if fds[i] !in peers {
          peers := peers[fds[i] := Peer(NewConn(accepted), false)];
          accepted := accepted + 1;
        }
        assert fds[..i + 1][..i] == fds[..i];
      }
      assert fds[..|fds|] == fds;
    }

    /** recv until a line is complete or the socket has no more. */
    method ReadUntilLine(p: Peer, recvs: seq<RecvResult>) returns (left: Left)
      ensures left == ReadLoop(handle, p.conn, recvs)
    {
      var c := p.conn;
      for i := 0 to |recvs|
        invariant ReadLoop(handle, c, recvs[i..]) == ReadLoop(handle, p.conn, recvs)
      {
        assert recvs[i..][1..] == recvs[i + 1..];
        if |c.inbuf| >= INBUF_SIZE - 1 { return Left(Peer(c, false), false); }
        if recvs[i].RecvAgain? { return Left(Peer(c, false), true); }
        if recvs[i].RecvError? || recvs[i].data == "" { return Left(Peer(c, false), false); }
        var data := recvs[i].data;
        c := Buffered(c, data[..Clip(|data|, INBUF_SIZE - |c.inbuf| - 1)]);
        if HasLine(c) { return Left(Peer(Answered(handle, c), true), true); }
      }
      left := Left(Peer(c, false), |c.inbuf| < INBUF_SIZE - 1);
    }

    /** send until the response is out or the socket takes no more. */
    method WriteOut(p: Peer, sends: seq<SendResult>) returns (left: Left)
      ensures left == WriteLoop(p.conn, sends)
    {
      var c, i := p.conn, 0;
      while Unsent(c) && i < |sends|
        invariant i <= |sends| && WriteLoop(c, sends[i..]) == WriteLoop(p.conn, sends)
      {
        assert sends[i..][1..] == sends[i + 1..];
        if sends[i].SendAgain? { return Left(Peer(c, true), true); }
        if sends[i].SendError? { return Left(Peer(c, true), false); }
        c := Advanced(c, Clip(sends[i].n, |c.outbuf| - c.outpos));
        i := i + 1;
      }
      left := if Unsent(c) then Left(Peer(c, true), true) else Left(Peer(c.(outbuf := "", outpos := 0), false), true);
    }

    method HandleReady(e: Event)
      requires e.Ready? && e.fd in peers
      modifies this
      ensures State() == Step(handle, old(State()), e)
    {
      var left := Left(peers[e.fd], !e.hangup);
      if left.open && !left.peer.writing && e.readable {
        left := ReadUntilLine(left.peer, e.recvs);
      }
      if left.open && left.peer.writing && e.writable {
        left := WriteOut(left.peer, e.sends);
      }
      if left.open {
        peers := peers[e.fd := left.peer];
      } else {
        peers := peers - {e.fd};
        closed := closed + [left.peer.conn];
      }
    }

    /** Any sequence of events, processed in place, is a run of the machine. */
    method ServeLoop(events: seq<Event>)
      modifies this
      ensures State() == Run(handle, old(State()), events)
    {
      ghost var start := State();
      for i := 0 to |events|
        invariant Run(handle, State(), events[i..]) == Run(handle, start, events)
      {
        match events[i] {
          case Incoming(fds) => AcceptAll(fds);
          case Ready(fd, _, _, _, _, _) => if fd in peers { HandleReady(events[i]); }
        }
        assert events[i..][1..] == events[i + 1..];
      }
    }
  }
}
