/** The TCP relay: a session moves bytes from the local TCP stack to the socket through a queue of packet
    buffers, and back through the ring buffer.  The socket, the stack and its callbacks are the environment:
    the stack may call whenever the coroutine waits, be it for its mutex or for something to do. */
module TcpSplice {
  import opened Ordering
  import opened RingBuffer

  /** What writev and readv on the socket do.  More than fits is cut. */
  datatype WriteIo = WriteAgain | WriteBroken | Wrote(n: nat)
  datatype ReadIo = ReadAgain | ReadEnd | ReadBytes(bytes: seq<Byte>)

  /** What the stack calls the session with. */
  datatype Call = Receive(packet: seq<Byte>) | ReceiveEnd | Acknowledge(n: nat) | Fail

  function Min(a: nat, b: nat): (m: nat)
    ensures m <= a && m <= b && (m == a || m == b)
  {
    if a < b then a else b
  }

  function Flat(q: seq<seq<Byte>>): seq<Byte> {
    if q == [] then [] else q[0] + Flat(q[1..])
  }

  lemma {:induction false} FlatAppend(a: seq<seq<Byte>>, b: seq<seq<Byte>>)
    ensures Flat(a + b) == Flat(a) + Flat(b)
    decreases |a|
  {
    if a == [] {
      assert a + b == b;
    } else {
      assert (a + b)[1..] == a[1..] + b;
      FlatAppend(a[1..], b);
    }
  }

  // ---- What happened ----

  /** What a session was told and did: a call, `n` bytes left the queue for the socket, bytes came from the socket, or
      all of them were passed to tcp_write. */
  datatype Deed = Called(call: Call) | Freed(n: nat) | Fetched(bytes: seq<Byte>) | Passed

  datatype History = Start | After(past: History, deed: Deed)

  /** What a history comes to: the bytes taken from the stack, how many of them were written to the socket, whether the
      stack ended or failed, the bytes read from the socket, and how many of these were passed on and acknowledged. */
  datatype Tally = Tally(intake: seq<Byte>, output: nat, ended: bool, failed: bool, input: seq<Byte>, passed: nat,
                         confirmed: nat)

  /** Packets are taken until the end, but none while more than a window of bytes waits; never more bytes are
      acknowledged than were passed on. */
  function Tallied(t: Tally, d: Deed, window: nat): Tally {
    match d
    case Freed(n) => t.(output := t.output + n)
    case Fetched(bytes) => t.(input := t.input + bytes)
    case Passed => t.(passed := |t.input|)
    case Called(Receive(packet)) =>
      if !t.ended && |t.intake| <= t.output + window then t.(intake := t.intake + packet) else t
    case Called(ReceiveEnd) => t.(ended := true)
    case Called(Fail) => t.(failed := true)
    case Called(Acknowledge(n)) =>
      if t.confirmed + n <= t.passed then t.(confirmed := t.confirmed + n)
      else if t.confirmed <= t.passed then t.(confirmed := t.passed)
      else t
  }

  function TallyOf(h: History, window: nat): Tally {
    match h
    case Start => Tally([], 0, false, false, [], 0, 0)
    case After(past, deed) => Tallied(TallyOf(past, window), deed, window)
  }

  function Heard(h: History, calls: seq<Call>): History {
    if calls == [] then h else After(Heard(h, calls[..|calls| - 1]), Called(calls[|calls| - 1]))
  }

  const MAX_VECTORS := 64

  /** One turn of the main loop: what the socket does, whether tcp_write or tcp_output fails, whether the coroutine
      is woken up or times out, and the calls that come while it waits for its mutex in either direction,
      between the directions, and at the end. */
  datatype Turn = Turn(write: WriteIo, read: ReadIo, err: bool, awake: bool,
                       lockedForward: seq<Call>, between: seq<Call>, lockedBack: seq<Call>, calls: seq<Call>)

  /** What came of a turn: how many bytes were written, whether the way back was tried, what was read, whether it was
      passed on, and whether the coroutine went to sleep. */
  datatype Did = Did(wrote: nat, back: bool, got: seq<Byte>, passed: bool, slept: bool)

  function WroteTo(h: History, calls: seq<Call>, n: nat): History {
    if n > 0 then After(Heard(h, calls), Freed(n)) else h
  }

  function ReadFrom(h: History, got: seq<Byte>): History {
    if got != [] then After(h, Fetched(got)) else h
  }

  function WentBack(h: History, got: seq<Byte>, calls: seq<Call>, passed: bool): History {
    var h' := Heard(ReadFrom(h, got), calls);
    if passed then After(h', Passed) else h'
  }

  /** All that happens in a turn, in order. */
  function TurnOf(h: History, t: Turn, d: Did): History {
    var h1 := Heard(WroteTo(h, t.lockedForward, d.wrote), t.between);
    var h2 := if d.back then WentBack(h1, d.got, t.lockedBack, d.passed) else h1;
    if d.slept then Heard(h2, t.calls) else h2
  }

  function RunOf(h: History, ts: seq<Turn>, ds: seq<Did>): History
    requires |ts| == |ds|
  {
    if ts == [] then h else TurnOf(RunOf(h, ts[..|ts| - 1], ds[..|ts| - 1]), ts[|ts| - 1], ds[|ts| - 1])
  }

  /** Only what a read gave was read, and only what a write took was written. */
  predicate Honest(t: Turn, d: Did) {
    && (d.wrote > 0 ==> t.write.Wrote? && d.wrote <= t.write.n)
    && (d.got != [] ==> t.read.ReadBytes? && d.got <= t.read.bytes)
  }

  /** res_f & res_b, for results of 0 and -1. */
  function Both(f: int, b: int): int
    requires -1 <= f <= 0 && -1 <= b <= 0
  {
    if f == -1 && b == -1 then -1 else 0
  }

  // ---- The bytes of a session ----

  /** All bytes that were received from the stack, written to the socket, read from the socket, passed to tcp_write and
      acknowledged, those that wait in between, whether the stack has ended and still has the connection, and what
      happened. */
  datatype Flow = Flow(received: seq<Byte>, forwarded: seq<Byte>, queued: seq<Byte>, fetched: seq<Byte>,
                       given: seq<Byte>, acked: seq<Byte>, flight: seq<Byte>, ready: seq<Byte>, eof: bool, pcb: bool,
                       story: History)

  /** Nothing is lost, made up or put out of order, and all is as it happened. */
  ghost predicate Sound(f: Flow, window: nat) {
    && f.received == f.forwarded + f.queued && f.given == f.acked + f.flight && f.fetched == f.given + f.ready
    && Tally(f.received, |f.forwarded|, f.eof, !f.pcb, f.fetched, |f.given|, |f.acked|) == TallyOf(f.story, window)
  }

  ghost function OnReceive(f: Flow, packet: seq<Byte>, window: nat): Flow {
    var f' := f.(story := After(f.story, Called(Receive(packet))));
    if !f.eof && |f.queued| <= window then f'.(received := f.received + packet, queued := f.queued + packet) else f'
  }

  ghost function OnSent(f: Flow, n: nat): Flow {
    var m := Min(n, |f.flight|);
    f.(acked := f.acked + f.flight[..m], flight := f.flight[m..], story := After(f.story, Called(Acknowledge(n))))
  }

  ghost function OnCall(f: Flow, call: Call, window: nat): Flow {
    match call
    case Receive(packet) => OnReceive(f, packet, window)
    case Acknowledge(n) => OnSent(f, n)
    case ReceiveEnd => f.(eof := true, story := After(f.story, Called(call)))
    case Fail => f.(pcb := false, story := After(f.story, Called(call)))
  }

  ghost function OnCalls(f: Flow, calls: seq<Call>, window: nat): Flow {
    if calls == [] then f else OnCall(OnCalls(f, calls[..|calls| - 1], window), calls[|calls| - 1], window)
  }

  ghost function OnFree(f: Flow, n: nat): Flow
    requires n <= |f.queued|
  {
    f.(forwarded := f.forwarded + f.queued[..n], queued := f.queued[n..], story := After(f.story, Freed(n)))
  }

  ghost function OnFetch(f: Flow, b: seq<Byte>): Flow {
    f.(fetched := f.fetched + b, ready := f.ready + b, story := After(f.story, Fetched(b)))
  }

  ghost function OnPass(f: Flow): Flow {
    f.(given := f.given + f.ready, flight := f.flight + f.ready, ready := [], story := After(f.story, Passed))
  }

  lemma {:induction false} ReceiveSound(f: Flow, packet: seq<Byte>, window: nat)
    requires Sound(f, window)
    ensures Sound(OnReceive(f, packet, window), window)
  {
    assert f.forwarded + f.queued + packet == f.forwarded + (f.queued + packet);
  }

  lemma {:induction false} SentSound(f: Flow, n: nat, window: nat)
    requires Sound(f, window)
    ensures Sound(OnSent(f, n), window)
  {
    var m := Min(n, |f.flight|);
    assert f.acked + f.flight == f.acked + f.flight[..m] + f.flight[m..];
  }

  lemma {:induction false} CallSound(f: Flow, call: Call, window: nat)
    requires Sound(f, window)
    ensures Sound(OnCall(f, call, window), window)
  {
    match call
    case Receive(packet) => ReceiveSound(f, packet, window);
    case Acknowledge(n) => SentSound(f, n, window);
    case ReceiveEnd =>
    case Fail =>
  }

  lemma {:induction false} FreeSound(f: Flow, n: nat, window: nat)
    requires Sound(f, window) && n <= |f.queued|
    ensures Sound(OnFree(f, n), window)
  {
    assert f.forwarded + f.queued == f.forwarded + f.queued[..n] + f.queued[n..];
  }

  lemma {:induction false} FetchSound(f: Flow, b: seq<Byte>, window: nat)
    requires Sound(f, window)
    ensures Sound(OnFetch(f, b), window)
  {
    assert f.given + f.ready + b == f.given + (f.ready + b);
  }

  lemma {:induction false} PassSound(f: Flow, window: nat)
    requires Sound(f, window)
    ensures Sound(OnPass(f), window)
  {
    assert f.acked + f.flight + f.ready == f.acked + (f.flight + f.ready);
    assert f.given + f.ready + [] == f.given + f.ready;
  }

  /** What was already moved stays as it is. */
  ghost predicate Grows(f: Flow, g: Flow) {
    f.received <= g.received && f.forwarded <= g.forwarded && f.fetched <= g.fetched && f.given <= g.given &&
    f.acked <= g.acked
  }

  /** Calls only add to the queue and to what is acknowledged. */
  ghost predicate OnlyHeard(f: Flow, g: Flow, calls: seq<Call>) {
    && f.queued <= g.queued && g.forwarded == f.forwarded && g.fetched == f.fetched && g.given == f.given
    && g.ready == f.ready && f.received <= g.received && f.acked <= g.acked && g.story == Heard(f.story, calls)
    && (f.eof ==> g.eof && g.queued == f.queued)
  }

  lemma {:induction false} CallsHeard(f: Flow, calls: seq<Call>, window: nat)
    ensures OnlyHeard(f, OnCalls(f, calls, window), calls)
    decreases |calls|
  {
    if calls != [] {
      var n := |calls| - 1;
      CallsHeard(f, calls[..n], window);
    }
  }

  class Session {
    const buffer: RingBuffer
    const window: nat                // TCP_WND_MAX
    var queue: seq<seq<Byte>>        // from the stack, not yet written to the socket
    var pcb: bool                    // the stack still has the connection
    var pcbEof: bool
    var shutSocket: bool             // shutdown (fd, SHUT_WR)
    var shutPcb: bool                // tcp_shutdown (pcb, 0, 1)
    ghost var received: seq<Byte>    // all that the stack delivered
    ghost var forwarded: seq<Byte>   // all that was written to the socket
    ghost var fetched: seq<Byte>     // all that was read from the socket
    ghost var given: seq<Byte>       // all that was passed to tcp_write
    ghost var acked: seq<Byte>       // all that the stack acknowledged
    ghost var brokenForward: bool    // a write to the socket failed
    ghost var brokenBack: bool       // the stack lost the connection or refused bytes
    ghost var story: History         // all that happened

    constructor (max: nat, window: nat)
      requires max > 0
      ensures Valid() && fresh(buffer) && fresh(buffer.data) && this.window == window
      ensures Now() == Flow([], [], [], [], [], [], [], [], false, true, Start)
      ensures !shutSocket && !shutPcb && !brokenForward && !brokenBack
    {
      buffer := new RingBuffer(max);
      this.window := window;
      queue, pcb, pcbEof, shutSocket, shutPcb := [], true, false, false, false;
      received, forwarded, fetched, given, acked, brokenForward, brokenBack := [], [], [], [], [], false, false;
      story := Start;
    }

    ghost function Now(): Flow
      reads this, buffer
    {
      Flow(received, forwarded, Flat(queue), fetched, given, acked, buffer.flight, buffer.ready, pcbEof, pcb, story)
    }

    /** A direction is shut down only when it is drained. */
    ghost predicate Valid()
      reads this, buffer, buffer.data
    {
      && buffer.Valid() && Sound(Now(), window)
      && (shutSocket ==> pcbEof && Flat(queue) == []) && (shutPcb ==> buffer.ready == []) && (!pcb ==> brokenBack)
    }

    /** pbuf_free_header: the first `n` bytes leave the queue. */
    method FreeHeader(n: nat)
      requires n <= |Flat(queue)|
      modifies this`queue
      ensures Flat(queue) == old(Flat(queue))[n..] && (old(queue) == [] ==> queue == [])
    {
      var rest := n;
      ghost var all := Flat(queue);
      while rest > 0
        invariant n <= |all| && 0 <= rest <= |Flat(queue)| && Flat(queue)[rest..] == all[n..] &&
                  (old(queue) == [] ==> queue == [])
        decreases |queue|, rest
      {
        var head := queue[0];
        if rest >= |head| {
          assert Flat(queue) == head + Flat(queue[1..]);
          rest := rest - |head|;
          queue := queue[1..];
        } else {
          assert ([head[rest..]] + queue[1..])[1..] == queue[1..];
          assert Flat(queue)[rest..] == head[rest..] + Flat(queue[1..]);
          queue := [head[rest..]] + queue[1..];
          rest := 0;
        }
      }
    }

    // ---- From the stack to the socket ----

    /** tcp_splice_f: at most 64 packet buffers go to the socket; when the stack has ended and the queue is
        empty, the socket is shut down for writing.  The stack may call between the write and the moment the
        written bytes leave the queue. */
    method SpliceForward(io: WriteIo, calls: seq<Call>) returns (res: int, ghost n: nat)
      requires Valid()
      modifies this`queue, this`pcb, this`pcbEof, this`shutSocket, this`received, this`forwarded, this`acked
      modifies this`brokenForward, this`brokenBack, this`story, buffer
      ensures Valid() && -1 <= res <= 1 && (res < 0 ==> shutSocket || brokenForward)
      ensures n == if io.Wrote? then Min(io.n, |Flat(old(queue)[..Min(64, |old(queue)|)])|) else 0
      ensures Advanced(old(Now()), Now(), calls, n, window)
      ensures shutSocket <==> old(shutSocket) || (old(queue) == [] && old(pcbEof))
      ensures shutPcb == old(shutPcb) && (old(brokenBack) ==> brokenBack)
      ensures res == 1 <==> n > 0
      ensures old(queue) != [] && !io.WriteAgain? && n == 0 ==> res == -1 && brokenForward
    {
      var iov := Vectors();
      var s := Written(io, iov);
      n := s;
      if s > 0 {
        Forward(s, calls);
        res := 1;
      } else {
        NotAdvanced(Now(), calls, n, window);
        res := Stall(io);
      }
    }

    /** Nothing was written: it has to wait, the queue is empty, or the socket failed. */
    method Stall(io: WriteIo) returns (res: int)
      requires Valid()
      modifies this`shutSocket, this`brokenForward
      ensures Valid() && -1 <= res <= 0 && (res < 0 ==> shutSocket || brokenForward)
      ensures shutSocket <==> old(shutSocket) || (queue == [] && pcbEof)
      ensures queue != [] && !io.WriteAgain? ==> res == -1 && brokenForward
    {
      if queue == [] {
        if pcbEof {
          shutSocket := true;
          return -1;
        }
        return 0;
      }
      if io.WriteAgain? {
        return 0;
      }
      brokenForward := true;
      res := -1;
    }

    /** What writev takes of the vectors. */
    method Written(io: WriteIo, iov: seq<seq<Byte>>) returns (s: nat)
      requires |iov| <= |queue| && iov == queue[..|iov|]
      ensures s == (if io.Wrote? then Min(io.n, |Flat(iov)|) else 0) && s <= |Flat(queue)|
      ensures s > 0 ==> queue != []
    {
      var total := Length(iov);
      FrontShorter(queue, |iov|);
      s := if io.Wrote? then Min(io.n, total) else 0;
    }

    /** The first buffers of the queue. */
    method Vectors() returns (iov: seq<seq<Byte>>)
      ensures iov == queue[..Min(64, |queue|)]
    {
      iov := [];
      while |iov| < MAX_VECTORS && |iov| < |queue|
        invariant |iov| <= |queue| && iov == queue[..|iov|] && |iov| <= 64
      {
        iov := iov + [queue[|iov|]];
      }
    }

    /** The first `s` bytes of the queue are on the socket; once the mutex is taken they leave the queue. */
    method Forward(s: nat, calls: seq<Call>)
      requires Valid() && !shutSocket && 0 < s <= |Flat(queue)|
      modifies this`queue, this`pcb, this`pcbEof, this`received, this`forwarded, this`acked, this`brokenBack, buffer
      modifies this`story
      ensures Valid() && Advanced(old(Now()), Now(), calls, s, window) && (old(brokenBack) ==> brokenBack)
    {
      ghost var f := Now();
      AdvancedSo(f, calls, s, window);
      Callbacks(calls);
      Release(s);
    }

    method Release(s: nat)
      requires Valid() && !shutSocket && s <= |Flat(queue)|
      modifies this`queue, this`forwarded, this`story
      ensures Valid() && Now() == OnFree(old(Now()), s)
    {
      FreeSound(Now(), s, window);
      ghost var written := Flat(queue)[..s];
      FreeHeader(s);
      forwarded, story := forwarded + written, After(story, Freed(s));
    }

    method Length(iov: seq<seq<Byte>>) returns (n: nat)
      ensures n == |Flat(iov)|
    {
      n := 0;
      for k := 0 to |iov|
        invariant n == |Flat(iov[..k])|
      {
        assert iov[..k + 1] == iov[..k] + [iov[k]];
        FlatAppend(iov[..k], [iov[k]]);
        assert Flat([iov[k]]) == iov[k] + Flat([iov[k]][1..]);
        n := n + |iov[k]|;
      }
      assert iov[..|iov|] == iov;
    }

    // ---- From the socket to the stack ----

    method Absorb(b: seq<Byte>)
      requires Valid() && !shutPcb && |b| <= buffer.data.Length - buffer.useSize
      modifies this`fetched, this`story, buffer, buffer.data
      ensures Valid() && Now() == OnFetch(old(Now()), b)
    {
      FetchSound(Now(), b, window);
      buffer.Fill(b);
      buffer.WriteFinish(|b|, b);
      fetched, story := fetched + b, After(story, Fetched(b));
    }

    /** What there is room for is read from the socket into the ring buffer. */
    method Fetch(io: ReadIo) returns (res: int, ghost got: seq<Byte>)
      requires Valid() && !shutPcb
      modifies this`fetched, this`story, buffer, buffer.data
      ensures Valid() && Now() == if got != [] then OnFetch(old(Now()), got) else old(Now())
      ensures got == if io.ReadBytes? then io.bytes[..Min(|io.bytes|, old(buffer.data.Length - buffer.useSize))] else []
      ensures res == if got != [] then 1
                     else if io.ReadAgain? || old(buffer.data.Length == buffer.useSize) then 0
                     else -1
    {
      var iov := buffer.Writing();
      got := [];
      if iov == [] {
        return 0, [];
      }
      if io.ReadAgain? {
        return 0, [];
      }
      var b := if io.ReadBytes? then io.bytes[..Min(|io.bytes|, buffer.data.Length - buffer.useSize)] else [];
      if b == [] {
        return -1, [];
      }
      Absorb(b);
      res, got := 1, b;
    }

    /** tcp_write, window by window. */
    method TcpWrite(iov: seq<Window>) returns (s: nat)
      requires forall w | w in iov :: w.from + w.len <= buffer.data.Length
      modifies this`given
      ensures given == old(given) + Bytes(buffer.data[..], iov) && s == |Bytes(buffer.data[..], iov)|
    {
      ghost var data := buffer.data[..];
      s := 0;
      for i := 0 to |iov|
        invariant given == old(given) + Bytes(data, iov[..i]) && s == |Bytes(data, iov[..i])|
      {
        assert iov[..i + 1][..i] == iov[..i];
        given := given + data[iov[i].from..iov[i].from + iov[i].len];
        s := s + iov[i].len;
      }
      assert iov[..|iov|] == iov;
    }

    /** All waiting bytes are passed to the stack. */
    method HandOver() returns (iovc: nat)
      requires Valid() && !shutPcb
      modifies this`given, this`story, buffer
      ensures Valid() && Now() == OnPass(old(Now())) && (iovc == 0 <==> old(buffer.ready) == [])
    {
      PassSound(Now(), window);
      var iov := buffer.Reading();
      iovc := |iov|;
      ghost var ready := buffer.ready;
      var s := TcpWrite(iov);
      buffer.ReadFinish(s);
      assert ready[..s] == ready && ready[s..] == [];
      story := After(story, Passed);
    }

    /** tcp_splice_b: read from the socket, pass everything to the stack; when the socket has ended and
        nothing waits, the stack is told so.  The stack may call between the read and the handing over. */
    method SpliceBack(io: ReadIo, err: bool, calls: seq<Call>) returns (res: int, ghost got: seq<Byte>)
      requires Valid() && !shutPcb
      modifies this`queue, this`pcb, this`pcbEof, this`received, this`acked, this`story
      modifies this`fetched, this`given, this`shutPcb, this`brokenBack, buffer, buffer.data
      ensures Valid() && -1 <= res <= 1 && (res < 0 ==> shutPcb || brokenBack) && (shutPcb ==> res < 0)
      ensures got == if io.ReadBytes? then io.bytes[..Min(|io.bytes|, old(buffer.data.Length - buffer.useSize))] else []
      ensures Returned(old(Now()), Now(), got, calls, window) && shutSocket == old(shutSocket)
    {
      ghost var f := Now();
      res, got := FetchLocked(io, calls);
      res := PassOn(res, err);
      ReturnedSo(f, got, calls, window);
    }

    /** The read, and what the stack calls before the lock is taken again. */
    method FetchLocked(io: ReadIo, calls: seq<Call>) returns (res: int, ghost got: seq<Byte>)
      requires Valid() && !shutPcb
      modifies this`queue, this`pcb, this`pcbEof, this`received, this`acked, this`story
      modifies this`fetched, this`brokenBack, buffer, buffer.data
      ensures Valid() && -1 <= res <= 1
      ensures got == if io.ReadBytes? then io.bytes[..Min(|io.bytes|, old(buffer.data.Length - buffer.useSize))] else []
      ensures Now() == OnCalls(if got != [] then OnFetch(old(Now()), got) else old(Now()), calls, window)
    {
      res, got := Fetch(io);
      Callbacks(calls);
    }

    /** What waits is passed to the stack if it still has the connection; `res` is what the read came to. */
    method PassOn(res: int, err: bool) returns (res': int)
      requires Valid() && !shutPcb && -1 <= res <= 1
      modifies this`given, this`story, this`shutPcb, this`brokenBack, buffer
      ensures Valid() && Now() == (if pcb then OnPass(old(Now())) else old(Now())) && -1 <= res' <= 1
      ensures (res' < 0 ==> shutPcb || brokenBack) && (shutPcb ==> res' < 0)
      ensures shutPcb <==> pcb && res < 0 && old(buffer.ready) == []
    {
      res' := res;
      if !pcb {
        return -1;
      }
      var iovc := HandOver();
      if iovc > 0 {
        res' := 1;
        if err {
          brokenBack := true;
          res' := -1;
        }
      } else if res < 0 {
        shutPcb := true;
      }
    }

    // ---- What the stack calls ----

    /** The callbacks of the stack.  Bytes come only before the end, and no more bytes are acknowledged than
        were passed on. */
    method Callback(call: Call)
      requires Valid()
      modifies this`queue, this`pcb, this`pcbEof, this`received, this`acked, this`brokenBack, this`story, buffer
      ensures Valid() && Now() == OnCall(old(Now()), call, window)
      ensures brokenBack <==> old(brokenBack) || call.Fail?
    {
      CallSound(Now(), call, window);
      match call {
        case Receive(packet) =>
          Accept(packet);
        case ReceiveEnd =>
          pcbEof, story := true, After(story, Called(call));
        case Acknowledge(n) =>
          Sent(n);
        case Fail =>
          pcb, brokenBack, story := false, true, After(story, Called(call));
      }
    }

    /** tcp_recv_handler with a packet: it joins the queue unless more than a window of bytes waits. */
    method Accept(packet: seq<Byte>)
      requires Valid()
      modifies this`queue, this`received, this`story
      ensures Valid() && Now() == OnReceive(old(Now()), packet, window)
    {
      ReceiveSound(Now(), packet, window);
      var total := Length(queue);
      if !pcbEof && (queue == [] || total <= window) {
        FlatOne(queue, packet);
        queue := queue + [packet];
        received := received + packet;
      }
      story := After(story, Called(Receive(packet)));
    }

    /** tcp_sent_handler */
    method Sent(n: nat)
      requires Valid()
      modifies this`acked, this`story, buffer
      ensures Valid() && Now() == OnSent(old(Now()), n)
    {
      SentSound(Now(), n, window);
      ghost var flight := buffer.flight;
      var m := Min(n, buffer.useSize - buffer.rdaSize);
      buffer.ReadRelease(m);
      acked, story := acked + flight[..m], After(story, Called(Acknowledge(n)));
    }

    method Callbacks(calls: seq<Call>)
      requires Valid()
      modifies this`queue, this`pcb, this`pcbEof, this`received, this`acked, this`brokenBack, this`story, buffer
      ensures Valid() && Now() == OnCalls(old(Now()), calls, window) && (old(brokenBack) ==> brokenBack)
    {
      for k := 0 to |calls|
        invariant Valid() && Now() == OnCalls(old(Now()), calls[..k], window) && (old(brokenBack) ==> brokenBack)
      {
        Callback(calls[k]);
        assert calls[..k + 1][..k] == calls[..k];
      }
      assert calls[..|calls|] == calls;
    }

    // ---- The loops ----

    /** What the main loop knows of a direction that has ended. */
    ghost predicate Ends(f: int, b: int)
      reads this
    {
      && -1 <= f <= 1 && -1 <= b <= 1 && (shutPcb ==> b < 0)
      && (f < 0 ==> shutSocket || brokenForward) && (b < 0 ==> shutPcb || brokenBack)
    }

    method MoveForward(f: int, ghost b: int, turn: Turn) returns (f': int, ghost n: nat)
      requires Valid() && Ends(f, b)
      modifies this`queue, this`pcb, this`pcbEof, this`shutSocket, this`received, this`forwarded, this`acked
      modifies this`brokenForward, this`brokenBack, this`story, buffer
      ensures Valid() && Ends(f', b) && Grows(old(Now()), Now())
      ensures story == WroteTo(old(story), turn.lockedForward, n) && (n > 0 ==> turn.write.Wrote? && n <= turn.write.n)
    {
      f', n := f, 0;
      if f >= 0 {
        f', n := SpliceForward(turn.write, turn.lockedForward);
      }
    }

    method MoveBack(ghost f: int, b: int, turn: Turn) returns (b': int, ghost got: seq<Byte>)
      requires Valid() && Ends(f, b)
      modifies this`queue, this`pcb, this`pcbEof, this`received, this`acked, this`story
      modifies this`fetched, this`given, this`shutPcb, this`brokenBack, buffer, buffer.data
      ensures Valid() && Ends(f, b') && Grows(old(Now()), Now())
      ensures story == if b >= 0 then WentBack(old(story), got, turn.lockedBack, pcb) else old(story)
      ensures got != [] ==> turn.read.ReadBytes? && got <= turn.read.bytes
    {
      b', got := b, [];
      if b >= 0 {
        b', got := SpliceBack(turn.read, turn.err, turn.lockedBack);
      }
    }

    /** The steps of one turn: each direction that has not ended moves, and the loop stops only when both have. */
    method Move(f: int, b: int, turn: Turn) returns (f': int, b': int, stop: bool, ghost d: Did)
      requires Valid() && Ends(f, b)
      modifies this, buffer, buffer.data
      ensures Valid() && Ends(f', b') && (stop <==> f' < 0 && b' < 0)
      ensures Grows(old(Now()), Now()) && Honest(turn, d) && !d.slept && story == TurnOf(old(story), turn, d)
    {
      ghost var n, got;
      ghost var f0 := Now();
      f', n := MoveForward(f, b, turn);
      ghost var f1 := Now();
      Sleep(turn.between);
      ghost var f2 := Now();
      b', got := MoveBack(f', b, turn);
      GrowsOn(f0, f1, f2);
      GrowsOn(f0, f2, Now());
      stop := !(f' > 0 || b' > 0) && Both(f', b') != 0;
      d := Did(n, b >= 0, got, pcb, false);
    }

    method Sleep(calls: seq<Call>)
      requires Valid()
      modifies this`queue, this`pcb, this`pcbEof, this`received, this`acked, this`brokenBack, this`story, buffer
      ensures Valid() && Grows(old(Now()), Now()) && story == Heard(old(story), calls)
      ensures old(brokenBack) ==> brokenBack
    {
      ghost var f := Now();
      Callbacks(calls);
      CallsHeard(f, calls, window);
    }

    /** A turn and the sleep after it. */
    method Round(f: int, b: int, turn: Turn) returns (f': int, b': int, stop: bool, ghost d: Did)
      requires Valid() && Ends(f, b)
      modifies this, buffer, buffer.data
      ensures Valid() && Ends(f', b') && (stop ==> f' < 0 && b' < 0)
      ensures Grows(old(Now()), Now()) && Honest(turn, d) && story == TurnOf(old(story), turn, d)
    {
      f', b', stop, d := Move(f, b, turn);
      if !stop {
        Sleep(turn.calls);
        d := d.(slept := true);
      }
    }

    /** From `f` on, what happened are these turns one after the other. */
    ghost predicate Ran(f: Flow, turns: seq<Turn>, ds: seq<Did>)
      reads this, buffer
    {
      && Grows(f, Now()) && |ds| <= |turns| && story == RunOf(f.story, turns[..|ds|], ds) && AllHonest(turns, ds)
    }

    method Next(f: int, b: int, turns: seq<Turn>, k: nat, ghost f0: Flow, ghost ds: seq<Did>)
      returns (f': int, b': int, stop: bool, ghost ds': seq<Did>)
      requires Valid() && Ends(f, b) && |ds| == k < |turns| && Ran(f0, turns, ds)
      modifies this, buffer, buffer.data
      ensures Valid() && Ends(f', b') && (stop ==> f' < 0 && b' < 0)
      ensures |ds'| == k + 1 && Ran(f0, turns, ds')
    {
      ghost var d;
      ghost var g := Now();
      f', b', stop, d := Round(f, b, turns[k]);
      GrowsOn(f0, g, Now());
      RunNext(f0.story, turns, ds, k, d);
      ds' := ds + [d];
    }

    /** The main loop, for any behaviour of the environment.  What happened are the turns one after the other.  If it
        ends because of its results, both directions were shut down or broken. */
    method Splice(turns: seq<Turn>) returns (byResult: bool, ghost ds: seq<Did>)
      requires Valid() && !shutSocket && !shutPcb
      modifies this, buffer, buffer.data
      ensures Valid() && Grows(old(Now()), Now())
      ensures byResult ==> (shutSocket || brokenForward) && (shutPcb || brokenBack)
      ensures |ds| <= |turns| && story == RunOf(old(story), turns[..|ds|], ds) && AllHonest(turns, ds)
      ensures |ds| < |turns| ==> byResult || !old(pcb) || (ds != [] && !turns[|ds| - 1].awake)
    {
      byResult, ds := false, [];
      if !pcb {
        return;
      }
      var f, b, stop := 1, 1, false;
      for k := 0 to |turns|
        invariant Valid() && Ends(f, b) && |ds| == k && Ran(old(Now()), turns, ds)
      {
        f, b, stop, ds := Next(f, b, turns, k, old(Now()), ds);
        if stop {
          return true, ds;
        }
        if !turns[k].awake {
          return;
        }
      }
    }

    /** After the main loop: wait until the stack has acknowledged everything or is gone. */
    method Drain(waits: seq<Turn>) returns (done: bool)
      requires Valid()
      modifies this, buffer, buffer.data
      ensures Valid() && (done && pcb ==> acked == given == fetched)
    {
      for k := 0 to |waits|
        invariant Valid()
      {
        if !pcb || buffer.useSize == 0 {
          return true;
        }
        Callbacks(waits[k].calls);
        if !waits[k].awake {
          return false;
        }
      }
      done := false;
    }
  }

  /** The first `n` bytes of the queue went to the socket, while the calls were heard. */
  ghost predicate Advanced(f: Flow, g: Flow, calls: seq<Call>, n: nat, window: nat) {
    && n <= |f.queued| && g.forwarded == f.forwarded + f.queued[..n]
    && (n == 0 ==> g == f)
    && (n > 0 ==> n <= |OnCalls(f, calls, window).queued| && g == OnFree(OnCalls(f, calls, window), n))
    && Grows(f, g) && g.story == WroteTo(f.story, calls, n)
  }

  /** What was read joined what was there, the calls were heard, and all was passed on if the stack is still there. */
  ghost predicate Returned(f: Flow, g: Flow, got: seq<Byte>, calls: seq<Call>, window: nat) {
    && g.fetched == f.fetched + got && g.forwarded == f.forwarded && (g.pcb ==> g.given == g.fetched)
    && g.story == WentBack(f.story, got, calls, g.pcb) && Grows(f, g)
    && var h := OnCalls(if got != [] then OnFetch(f, got) else f, calls, window);
       g == if h.pcb then OnPass(h) else h
  }

  lemma {:induction false} AdvancedSo(f: Flow, calls: seq<Call>, n: nat, window: nat)
    requires 0 < n <= |f.queued|
    ensures var h := OnCalls(f, calls, window); n <= |h.queued| && Advanced(f, OnFree(h, n), calls, n, window)
  {
    CallsHeard(f, calls, window);
    StillFirst(f.queued, OnCalls(f, calls, window).queued, n);
  }

  lemma {:induction false} NotAdvanced(f: Flow, calls: seq<Call>, n: nat, window: nat)
    requires n == 0
    ensures Advanced(f, f, calls, n, window)
  {
    assert f.forwarded + f.queued[..0] == f.forwarded;
  }

  lemma {:induction false} ReturnedSo(f: Flow, got: seq<Byte>, calls: seq<Call>, window: nat)
    requires Sound(f, window)
    ensures var h := OnCalls(if got != [] then OnFetch(f, got) else f, calls, window);
            Returned(f, if h.pcb then OnPass(h) else h, got, calls, window)
  {
    var f' := if got != [] then OnFetch(f, got) else f;
    CallsHeard(f', calls, window);
    assert f.fetched + [] == f.fetched;
    if got != [] {
      FetchSound(f, got, window);
    }
  }

  lemma {:induction false} GrowsOn(f: Flow, g: Flow, h: Flow)
    requires Grows(f, g) && Grows(g, h)
    ensures Grows(f, h)
  {}

  predicate AllHonest(turns: seq<Turn>, ds: seq<Did>) {
    |ds| <= |turns| && forall k | 0 <= k < |ds| :: Honest(turns[k], ds[k])
  }

  lemma {:induction false} StillFirst(q: seq<Byte>, q': seq<Byte>, s: nat)
    requires q <= q' && s <= |q|
    ensures q'[..s] == q[..s]
  {}

  lemma {:induction false} FlatOne(q: seq<seq<Byte>>, packet: seq<Byte>)
    ensures Flat(q + [packet]) == Flat(q) + packet
  {
    FlatAppend(q, [packet]);
    assert Flat([packet]) == packet + Flat([packet][1..]);
  }

  lemma {:induction false} FrontShorter(q: seq<seq<Byte>>, n: nat)
    requires n <= |q|
    ensures |Flat(q[..n])| <= |Flat(q)|
  {
    assert q == q[..n] + q[n..];
    FlatAppend(q[..n], q[n..]);
  }

  lemma {:induction false} RunNext(h: History, ts: seq<Turn>, ds: seq<Did>, k: nat, d: Did)
    requires k == |ds| < |ts|
    ensures RunOf(h, ts[..k + 1], ds + [d]) == TurnOf(RunOf(h, ts[..k], ds), ts[k], d)
  {
    assert ts[..k + 1][..k] == ts[..k] && (ds + [d])[..k] == ds;
  }

  function Receives(packets: seq<seq<Byte>>): seq<Call> {
    if packets == [] then [] else Receives(packets[..|packets| - 1]) + [Receive(packets[|packets| - 1])]
  }

  /** Packets that fit a window together are all taken, in order. */
  lemma {:induction false} AllTaken(packets: seq<seq<Byte>>, window: nat)
    requires |Flat(packets)| <= window
    ensures TallyOf(Heard(Start, Receives(packets)), window) == Tally(Flat(packets), 0, false, false, [], 0, 0)
    decreases |packets|
  {
    if packets != [] {
      var n := |packets| - 1;
      var front, last := packets[..n], packets[n];
      assert packets == front + [last];
      FlatOne(front, last);
      AllTaken(front, window);
      var calls := Receives(packets);
      assert calls[..|calls| - 1] == Receives(front);
    }
  }
}
