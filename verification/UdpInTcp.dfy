/** Datagrams in a TCP stream: a 3-byte header (payload length, header length), the address, the payload.
    The receiver reads the header and the first two address bytes, in one or two parts, and then the rest. */
module UdpInTcp {
  import opened Options
  import opened Ordering
  import opened Socks5Messages

  datatype Datagram = Datagram(addr: Key, payload: Key)

  /** The address says its own length. */
  predicate WellAddressed(d: Datagram) {
    |d.addr| >= 2 && AddrLen(d.addr[0], d.addr[1]) == Some(|d.addr|)
  }

  /** The header as the sender writes it: lengths are cut to their fields. */
  function Header(d: Datagram): Key {
    var n := |d.payload| % 65536;
    [n / 256, n % 256, (3 + |d.addr|) % 256]
  }

  function Frame(d: Datagram): Key {
    Header(d) + (d.addr + d.payload)
  }

  function Frames(ds: seq<Datagram>): Key {
    if ds == [] then [] else Frame(ds[0]) + Frames(ds[1..])
  }

  /** Batches of datagrams sent one after the other are one sequence of frames. */
  lemma {:induction false} FramesAppend(a: seq<Datagram>, b: seq<Datagram>)
    ensures Frames(a + b) == Frames(a) + Frames(b)
    decreases |a|
  {
    if a == [] {
      assert a + b == b;
    } else {
      assert (a + b)[1..] == a[1..] + b;
      FramesAppend(a[1..], b);
      assert Frame(a[0]) + (Frames(a[1..]) + Frames(b)) == Frame(a[0]) + Frames(a[1..]) + Frames(b);
    }
  }

  lemma {:induction false} FramesNext(ds: seq<Datagram>, i: nat)
    requires i < |ds|
    ensures Frames(ds[..i + 1]) == Frames(ds[..i]) + Frame(ds[i])
  {
    assert ds[..i + 1] == ds[..i] + [ds[i]];
    FramesAppend(ds[..i], [ds[i]]);
    assert Frames([ds[i]]) == Frame(ds[i]) + Frames([ds[i]][1..]);
  }

  function U16At(stream: Key): nat
    requires |stream| >= 2
  {
    stream[0] as int * 256 + stream[1] as int
  }

  /** What the receiver makes of a stream: a datagram and the rest, not enough bytes, or a bad header. */
  datatype Got = Got(datagram: Datagram, rest: Key) | Short | Bad

  function Decode(stream: Key, room: nat): Got {
    if |stream| < 5 then Short
    else if stream[2] < 5 then Bad
    else
      var addrlen, datlen := stream[2] as int - 3, U16At(stream);
      if datlen > room - addrlen then Bad
      else if |stream| < 3 + addrlen + datlen then Short
      else Got.Got(Datagram(stream[3..3 + addrlen], stream[3 + addrlen..3 + addrlen + datlen]),
          stream[3 + addrlen + datlen..])
  }

  /** Address and payload fit the receiver's buffer and the length fields. */
  predicate Fits(d: Datagram, room: nat) {
    2 <= |d.addr| <= 252 && |d.payload| < 65536 && |d.addr| + |d.payload| <= room
  }

  /** A frame at the front of a stream is read back. */
  lemma {:induction false} DecodeFrame(d: Datagram, rest: Key, room: nat)
    requires Fits(d, room)
    ensures Decode(Frame(d) + rest, room) == Got.Got(d, rest)
  {
    var s, h := Frame(d) + rest, Header(d);
    assert s == h + (d.addr + (d.payload + rest));
    assert s[0] == h[0] && s[1] == h[1] && s[2] == h[2];
    var n := |d.payload|;
    assert h[0] as int * 256 + h[1] as int == n;
    assert s[3..3 + |d.addr|] == d.addr;
    assert s[3 + |d.addr|..3 + |d.addr| + n] == d.payload;
    assert s[3 + |d.addr| + n..] == rest;
  }

  /** A frame is read back exactly if it fits the buffer and its lengths fit their fields; an address may have at
      most 252 bytes. */
  lemma {:induction false} DecodesExactly(d: Datagram, rest: Key, room: nat)
    requires WellAddressed(d)
    ensures Decode(Frame(d) + rest, room) == Got.Got(d, rest) <==> Fits(d, room)
  {
    if Fits(d, room) {
      DecodeFrame(d, rest, room);
    } else {
      FrameHead(d, rest);
    }
  }

  lemma {:induction false} FrameHead(d: Datagram, rest: Key)
    requires |d.addr| >= 2
    ensures var s := Frame(d) + rest;
            |s| >= 5 && U16At(s) == |d.payload| % 65536 && s[2] as int == (3 + |d.addr|) % 256
  {
    var s, h := Frame(d) + rest, Header(d);
    assert s == h + (d.addr + (d.payload + rest));
    assert s[0] == h[0] && s[1] == h[1] && s[2] == h[2];
  }

  /** A name of 249 bytes makes an address of 253 bytes, which is not read back. */
  lemma {:induction false} LongName(d: Datagram, rest: Key, room: nat)
    requires d == Datagram([3, 249] + seq(251, _ => 0), [])
    ensures WellAddressed(d) && |d.addr| == 253 && Decode(Frame(d) + rest, room) != Got.Got(d, rest)
  {
    DecodesExactly(d, rest, room);
  }

  /** sendmmsg: one write for the whole batch, or an error at an address of unknown type. */
  method Send(msgv: seq<Datagram>) returns (sent: Option<Key>)
    requires forall d | d in msgv :: |d.addr| >= 2 && (AddrLen(d.addr[0], d.addr[1]).None? || WellAddressed(d))
    ensures sent == if forall d | d in msgv :: AddrLen(d.addr[0], d.addr[1]).Some? then Some(Frames(msgv)) else None
  {
    var iov: Key := [];
    for i := 0 to |msgv|
      invariant iov == Frames(msgv[..i]) && forall d | d in msgv[..i] :: AddrLen(d.addr[0], d.addr[1]).Some?
    {
      if AddrLen(msgv[i].addr[0], msgv[i].addr[1]).None? {
        assert msgv[i] in msgv;
        return None;
      }
      FramesNext(msgv, i);
      assert msgv[..i + 1] == msgv[..i] + [msgv[i]];
      iov := iov + Frame(msgv[i]);
    }
    assert msgv[..|msgv|] == msgv;
    sent := Some(iov);
  }

  /** `got` are the first datagrams of `stream`, and `rest` comes after them. */
  ghost predicate Reads(stream: Key, room: nat, got: seq<Datagram>, rest: Key) {
    if got == [] then rest == stream
    else
      var r := Decode(stream, room);
      r.Got? && r.datagram == got[0] && Reads(r.rest, room, got[1..], rest)
  }

  lemma {:induction false} ReadsAppend(stream: Key, room: nat, a: seq<Datagram>, mid: Key, b: seq<Datagram>, rest: Key)
    requires Reads(stream, room, a, mid) && Reads(mid, room, b, rest)
    ensures Reads(stream, room, a + b, rest)
    decreases |a|
  {
    if a == [] {
      assert a + b == b;
    } else {
      assert (a + b)[1..] == a[1..] + b;
      ReadsAppend(Decode(stream, room).rest, room, a[1..], mid, b, rest);
    }
  }

  // ---- What the reads return ----

  type Count = n: nat | 1 <= n <= 5 witness 1

  /** The socket at the first read of a header: nothing is there at the moment, or the read gives up to `part`
      bytes. */
  datatype Arrival = Nothing | Part(part: Count)

  /** What comes behind the last byte: the end of the stream, an error, or the coroutine is told to stop. */
  datatype Ending = Closed | Reset | Stopped

  function Code(end: Ending): int {
    match end
    case Closed => 0
    case Reset => -1
    case Stopped => -2
  }

  /** A read that waits for all of `want` bytes when `have` bytes come. */
  function WaitAll(have: nat, want: nat, end: Ending): int {
    if have >= want then want else if have > 0 then have else Code(end)
  }

  /** The first read of a header does not wait if `nonblock`: then nothing is -1. */
  function FirstResult(have: nat, a: Arrival, nonblock: bool, end: Ending): int {
    if nonblock && a.Nothing? then -1
    else if have == 0 then if nonblock && end.Stopped? then -1 else Code(end)
    else
      var part := if a.Part? then a.part else 5;
      if have < part then have else part
  }

  /** Both reads of a header added up, with `have` bytes to come: 5 if all is well. */
  function HeadResult(have: nat, a: Arrival, nonblock: bool, end: Ending): int {
    var first := FirstResult(have, a, nonblock, end);
    if 0 < first < 5 then first + WaitAll(have - first, 5 - first, end) else first
  }

  /** What is returned once a header has been read and its datagram cannot be. */
  function BodyResult(rest: Key, room: nat, end: Ending): int
    requires |rest| >= 5
  {
    if Decode(rest, room).Bad? then -1 else WaitAll(|rest| - 5, rest[2] as int - 5 + U16At(rest), end)
  }

  /** What recvmmsg returns if it stops behind `n` of `num` datagrams, before `rest`. */
  function ReturnValue(n: nat, num: nat, rest: Key, room: nat, a: Arrival, nonblock: bool, end: Ending): int {
    if n >= num then n
    else
      var head := HeadResult(|rest|, a, nonblock, end);
      if head != 5 || |rest| < 5 then if n > 0 then n else head
      else BodyResult(rest, room, end)
  }

  /** The first reads of the header give all of its five bytes. */
  predicate HasHead(rest: Key, a: Arrival, nonblock: bool) {
    |rest| >= 5 && !(nonblock && a.Nothing?)
  }

  lemma {:induction false} HeadExactly(rest: Key, a: Arrival, nonblock: bool, end: Ending)
    ensures HeadResult(|rest|, a, nonblock, end) == 5 <==> HasHead(rest, a, nonblock)
  {}

  /** Behind `n` datagrams recvmmsg goes no further. */
  predicate Stops(n: nat, num: nat, rest: Key, room: nat, a: Arrival, nonblock: bool) {
    n == num || (n < num && !(HasHead(rest, a, nonblock) && Decode(rest, room).Got?))
  }

  /** The stream ends inside the first header, and the bytes are not all lost to an error code. */
  predicate CutHead(rest: Key, a: Arrival, nonblock: bool, end: Ending) {
    && 0 < |rest| < 5 && !(nonblock && a.Nothing?)
    && |rest| + (if a.Nothing? || |rest| <= a.part then Code(end) else 0) > 0
  }

  /** The stream ends behind a good header and a part of what it announces. */
  predicate CutBody(rest: Key, room: nat, a: Arrival, nonblock: bool) {
    HasHead(rest, a, nonblock) && Decode(rest, room).Short? && |rest| > 5
  }

  /** The callers take a positive result as the number of datagrams.  It is wrong exactly if the stream ends in the
      first header of the batch, or in what follows a header unless as many bytes as datagrams were read.  They take
      the others as a failure.  Then datagrams are lost exactly if a bad header, or one with nothing behind it,
      follows them. */
  lemma {:induction false} MiscountsExactly(n: nat, num: nat, rest: Key, room: nat, a: Arrival, nonblock: bool,
                                            end: Ending)
    requires Stops(n, num, rest, room, a, nonblock)
    ensures var r := ReturnValue(n, num, rest, room, a, nonblock, end);
            r > 0 && r != n <==>
              n < num && ((n == 0 && CutHead(rest, a, nonblock, end)) ||
                          (CutBody(rest, room, a, nonblock) && |rest| - 5 != n))
    ensures n > 0 && ReturnValue(n, num, rest, room, a, nonblock, end) <= 0 <==>
            0 < n < num && HasHead(rest, a, nonblock) && (Decode(rest, room).Bad? || |rest| == 5)
  {
    HeadExactly(rest, a, nonblock, end);
  }

  // ---- Receiving ----

  /** The header and the first two address bytes, in one read or in two. */
  method ReadHead(stream: Key, pos: nat, a: Arrival, nonblock: bool, end: Ending) returns (res: int, head: Key)
    requires pos <= |stream|
    ensures res == HeadResult(|stream| - pos, a, nonblock, end)
    ensures res == 5 ==> pos + 5 <= |stream| && head == stream[pos..pos + 5]
  {
    var have := |stream| - pos;
    head := [];
    res := FirstResult(have, a, nonblock, end);
    if res > 0 {
      head := stream[pos..pos + res];
      if res < 5 {
        var more := WaitAll(have - res, 5 - res, end);
        if more > 0 {
          head := head + stream[pos + res..pos + res + more];
        }
        res := res + more;
      }
    }
  }

  datatype One = One(datagram: Datagram, next: nat) | NoHead(res: int) | Broken(res: int)

  /** One datagram, if its header is there and good and the rest follows. */
  method ReadOne(stream: Key, pos: nat, room: nat, a: Arrival, nonblock: bool, end: Ending) returns (r: One)
    requires pos <= |stream|
    ensures r.One? ==> pos <= r.next <= |stream| && Reads(stream[pos..], room, [r.datagram], stream[r.next..])
    ensures r.NoHead? ==> !HasHead(stream[pos..], a, nonblock) && r.res == HeadResult(|stream| - pos, a, nonblock, end)
    ensures r.Broken? ==> HasHead(stream[pos..], a, nonblock) && !Decode(stream[pos..], room).Got?
    ensures r.Broken? ==> r.res == BodyResult(stream[pos..], room, end)
  {
    var res, head := ReadHead(stream, pos, a, nonblock, end);
    HeadExactly(stream[pos..], a, nonblock, end);
    if res != 5 {
      return NoHead(res);
    }
    ghost var s := stream[pos..];
    assert s[0] == head[0] && s[1] == head[1] && s[2] == head[2];
    if head[2] < 5 {
      return Broken(-1);
    }
    var addrlen, datlen := head[2] as int - 3, U16At(head);
    if datlen > room - addrlen {
      return Broken(-1);
    }
    res := WaitAll(|stream| - pos - 5, addrlen - 2 + datlen, end);
    if res != addrlen - 2 + datlen {
      return Broken(res);
    }
    var body := stream[pos + 5..pos + 3 + addrlen + datlen];
    var d := Datagram(head[3..] + body[..addrlen - 2], body[addrlen - 2..]);
    DecodeAt(stream, pos, room, d);
    r := One(d, pos + 3 + addrlen + datlen);
  }

  /** recvmmsg: the filled messages and the result, which says how many they are or why it stopped. */
  method Receive(stream: Key, pos: nat, room: nat, arrivals: seq<Arrival>, nonblock: bool, end: Ending)
    returns (r: int, msgs: seq<Datagram>, pos': nat)
    requires pos <= |stream|
    ensures pos <= pos' <= |stream| && |msgs| <= |arrivals| && Reads(stream[pos..], room, msgs, stream[pos'..])
    ensures var a := if |msgs| < |arrivals| then arrivals[|msgs|] else Nothing;
      && Stops(|msgs|, |arrivals|, stream[pos'..], room, a, nonblock)
      && r == ReturnValue(|msgs|, |arrivals|, stream[pos'..], room, a, nonblock, end)
  {
    msgs, pos' := [], pos;
    while |msgs| < |arrivals|
      invariant pos <= pos' <= |stream| && |msgs| <= |arrivals| && Reads(stream[pos..], room, msgs, stream[pos'..])
      decreases |arrivals| - |msgs|
    {
      var a := arrivals[|msgs|];
      var one := ReadOne(stream, pos', room, a, nonblock, end);
      HeadExactly(stream[pos'..], a, nonblock, end);
      match one {
        case NoHead(res) =>
          return if msgs != [] then |msgs| else res, msgs, pos';
        case Broken(res) =>
          return res, msgs, pos';
        case One(d, next) =>
          ReadsAppend(stream[pos..], room, msgs, stream[pos'..], [d], stream[next..]);
          msgs, pos' := msgs + [d], next;
      }
    }
    r := |msgs|;
  }

  lemma {:induction false} Shifted(s: Key, pos: nat, i: nat, j: nat)
    requires i <= j && pos + j <= |s|
    ensures s[pos..][i..j] == s[pos + i..pos + j]
  {}

  lemma {:induction false} DecodeAt(stream: Key, pos: nat, room: nat, d: Datagram)
    requires pos + 5 <= |stream| && stream[pos + 2] >= 5
    requires var addrlen, datlen := stream[pos + 2] as int - 3, stream[pos] as int * 256 + stream[pos + 1] as int;
      && datlen <= room - addrlen && pos + 3 + addrlen + datlen <= |stream|
      && d == Datagram(stream[pos + 3..pos + 5] + stream[pos + 5..pos + 3 + addrlen],
                       stream[pos + 3 + addrlen..pos + 3 + addrlen + datlen])
    ensures var n := stream[pos + 2] as int + (stream[pos] as int * 256 + stream[pos + 1] as int);
      Reads(stream[pos..], room, [d], stream[pos + n..])
  {
    var s := stream[pos..];
    assert s[0] == stream[pos] && s[1] == stream[pos + 1] && s[2] == stream[pos + 2];
    var addrlen, datlen := s[2] as int - 3, s[0] as int * 256 + s[1] as int;
    assert stream[pos + 3..pos + 5] + stream[pos + 5..pos + 3 + addrlen] == stream[pos + 3..pos + 3 + addrlen];
    Shifted(stream, pos, 3, 3 + addrlen);
    Shifted(stream, pos, 3 + addrlen, 3 + addrlen + datlen);
    assert s[3 + addrlen + datlen..] == stream[pos + 3 + addrlen + datlen..];
    assert [d][1..] == [];
  }

  /** Whatever a receiver reads from a stream of frames is what was sent, in order, and it stops between
      frames: batches, parts and pauses make no difference. */
  lemma {:induction false} ReceivesWhatWasSent(ds: seq<Datagram>, tail: Key, room: nat, got: seq<Datagram>, rest: Key)
    requires (forall d | d in ds :: Fits(d, room)) && |got| <= |ds| && Reads(Frames(ds) + tail, room, got, rest)
    ensures got == ds[..|got|] && rest == Frames(ds[|got|..]) + tail
    decreases |got|
  {
    if got == [] {
      assert ds[0..] == ds;
    } else {
      FirstRead(ds, tail, room, got, rest);
      ReceivesWhatWasSent(ds[1..], tail, room, got[1..], rest);
      assert ds[1..][|got| - 1..] == ds[|got|..];
      assert got == [got[0]] + got[1..];
      assert ds[..|got|] == [ds[0]] + ds[1..][..|got| - 1];
    }
  }

  lemma {:induction false} FirstRead(ds: seq<Datagram>, tail: Key, room: nat, got: seq<Datagram>, rest: Key)
    requires (forall d | d in ds :: Fits(d, room)) && ds != [] && got != [] && Reads(Frames(ds) + tail, room, got, rest)
    ensures got[0] == ds[0] && Reads(Frames(ds[1..]) + tail, room, got[1..], rest)
    ensures forall d | d in ds[1..] :: Fits(d, room)
  {
    assert ds[0] in ds;
    assert Frames(ds) + tail == Frame(ds[0]) + (Frames(ds[1..]) + tail);
    DecodeFrame(ds[0], Frames(ds[1..]) + tail, room);
    forall e | e in ds[1..] ensures Fits(e, room) { assert e in ds; }
  }

  /** Reading such a stream never fails before its last whole frame. */
  lemma {:induction false} NeverFails(ds: seq<Datagram>, tail: Key, room: nat, got: seq<Datagram>, rest: Key)
    requires (forall d | d in ds :: Fits(d, room)) && |got| < |ds| && Reads(Frames(ds) + tail, room, got, rest)
    ensures Decode(rest, room).Got?
  {
    ReceivesWhatWasSent(ds, tail, room, got, rest);
    var d, more := ds[|got|], ds[|got|..];
    assert d in ds;
    assert more[0] == d && Frames(more) + tail == Frame(d) + (Frames(more[1..]) + tail);
    DecodeFrame(d, Frames(more[1..]) + tail, room);
  }

  /** No more is read than was sent. */
  lemma {:induction false} ReceivesNoMore(ds: seq<Datagram>, tail: Key, room: nat, got: seq<Datagram>, rest: Key)
    requires (forall d | d in ds :: Fits(d, room)) && Reads(Frames(ds) + tail, room, got, rest)
    requires !Decode(tail, room).Got?
    ensures |got| <= |ds| && got == ds[..|got|] && rest == Frames(ds[|got|..]) + tail
    decreases |ds|
  {
    if ds == [] {
      assert Frames(ds) + tail == tail;
    } else if got != [] {
      FirstRead(ds, tail, room, got, rest);
      ReceivesNoMore(ds[1..], tail, room, got[1..], rest);
    }
    ReceivesWhatWasSent(ds, tail, room, got, rest);
  }

  // ---- Streams that are cut off ----

  /** A frame that is cut off is not a datagram, and its header is good if it is there. */
  lemma {:induction false} CutFrame(d: Datagram, room: nat, k: nat)
    requires Fits(d, room) && k < |Frame(d)|
    ensures Decode(Frame(d)[..k], room).Short?
    ensures var s := Frame(d)[..k]; k >= 5 ==> s[2] as int - 5 + U16At(s) == |Frame(d)| - 5
  {
    var f, s := Frame(d), Frame(d)[..k];
    FrameHead(d, []);
    assert f + [] == f;
    assert |f| == 3 + |d.addr| + |d.payload|;
    if k >= 5 {
      SameHead(s, f, k);
    }
  }

  lemma {:induction false} SameHead(s: Key, f: Key, k: nat)
    requires 5 <= k <= |f| && s == f[..k]
    ensures s[2] == f[2] && U16At(s) == U16At(f)
  {}

  /** A stream that ends `k` bytes into a frame, read to its end: all whole datagrams are there, but what is returned
      is a number of bytes, except in a header that is not the first. */
  lemma {:induction false} CutStream(ds: seq<Datagram>, d: Datagram, k: nat, room: nat, got: seq<Datagram>, rest: Key,
                                     num: nat, a: Arrival, nonblock: bool)
    requires AllFit(ds, room) && Fits(d, room) && 0 < k < |Frame(d)| && num > |ds| && a.Part?
    requires Reads(Frames(ds) + Frame(d)[..k], room, got, rest) && Stops(|got|, num, rest, room, a, nonblock)
    ensures got == ds && rest == Frame(d)[..k]
    ensures ReturnValue(|got|, num, rest, room, a, nonblock, Closed) ==
            if k >= 5 then k - 5 else if ds == [] then k else |ds|
  {
    var tail := Frame(d)[..k];
    CutFrame(d, room, k);
    ReceivesNoMore(ds, tail, room, got, rest);
    if |got| < |ds| {
      NeverFails(ds, tail, room, got, rest);
      LongEnough(rest, room);
    }
    assert ds[..|ds|] == ds && Frames(ds[|ds|..]) + tail == tail;
    HeadExactly(rest, a, nonblock, Closed);
  }

  lemma {:induction false} LongEnough(s: Key, room: nat)
    requires Decode(s, room).Got?
    ensures |s| >= 5
  {}

  /** Three bytes of a header and the end of the stream: no datagram is there, and three are reported. */
  method CutHeader(a: Arrival, room: nat, num: nat) returns (r: int, msgs: seq<Datagram>)
    requires a.Part? && num > 0
    ensures r == 3 && msgs == []
  {
    var stream: Key := [0, 0, 10];
    var pos;
    r, msgs, pos := Receive(stream, 0, room, seq(num, _ => a), true, Closed);
    assert stream[0..] == stream;
    ThreeBytes(stream, msgs, stream[pos..], room, a, num);
  }

  lemma {:induction false} ThreeBytes(stream: Key, msgs: seq<Datagram>, rest: Key, room: nat, a: Arrival, num: nat)
    requires |stream| == 3 && Reads(stream, room, msgs, rest) && a.Part? && num > 0
    ensures msgs == [] && ReturnValue(0, num, rest, room, a, true, Closed) == 3
  {
    assert Decode(stream, room).Short?;
  }

  // ---- Both ends together ----

  /** The sender writes a batch, or the receiver asks for one. */
  datatype Act = Transmit(msgs: seq<Datagram>) | Collect(arrivals: seq<Arrival>)

  function AllSent(acts: seq<Act>): seq<Datagram> {
    if acts == [] then []
    else
      var a := acts[|acts| - 1];
      AllSent(acts[..|acts| - 1]) + if a.Transmit? then a.msgs else []
  }

  predicate AllFit(ds: seq<Datagram>, room: nat) {
    forall d | d in ds :: Fits(d, room) && WellAddressed(d)
  }

  /** The first read of every header gives something. */
  predicate Flowing(arrivals: seq<Arrival>) {
    forall k | 0 <= k < |arrivals| :: arrivals[k].Part?
  }

  lemma {:induction false} SentMore(acts: seq<Act>, k: nat, room: nat)
    requires k < |acts| && AllFit(AllSent(acts[..k + 1]), room)
    ensures AllSent(acts[..k + 1]) == AllSent(acts[..k]) + if acts[k].Transmit? then acts[k].msgs else []
    ensures AllFit(AllSent(acts[..k]), room) && (acts[k].Transmit? ==> AllFit(acts[k].msgs, room))
  {
    assert acts[..k + 1][..k] == acts[..k];
  }

  lemma {:induction false} SentFit(acts: seq<Act>, k: nat, room: nat)
    requires k <= |acts| && AllFit(AllSent(acts), room)
    ensures AllFit(AllSent(acts[..k]), room)
    decreases |acts| - k
  {
    if k == |acts| {
      assert acts[..k] == acts;
    } else {
      SentFit(acts, k + 1, room);
      SentMore(acts, k, room);
    }
  }

  /** What is left of the stream are the frames that have not been read. */
  ghost predicate InStep(stream: Key, pos: nat, sent: seq<Datagram>, got: seq<Datagram>) {
    |got| <= |sent| && got == sent[..|got|] && pos <= |stream| && stream[pos..] == Frames(sent[|got|..])
  }

  lemma {:induction false} StepSent(stream: Key, pos: nat, sent: seq<Datagram>, got: seq<Datagram>, msgs: seq<Datagram>)
    requires InStep(stream, pos, sent, got)
    ensures InStep(stream + Frames(msgs), pos, sent + msgs, got)
  {
    FramesAppend(sent[|got|..], msgs);
    assert (stream + Frames(msgs))[pos..] == stream[pos..] + Frames(msgs);
    assert (sent + msgs)[|got|..] == sent[|got|..] + msgs;
  }

  /** Behind `n` datagrams of a stream of whole frames: there is another one, or the stream ends. */
  ghost predicate GoesOn(rest: Key, room: nat, n: nat, all: nat) {
    if n < all then Decode(rest, room).Got? else rest == []
  }

  lemma {:induction false} WholeFrames(ds: seq<Datagram>, room: nat, got: seq<Datagram>, rest: Key)
    requires AllFit(ds, room) && Reads(Frames(ds), room, got, rest)
    ensures |got| <= |ds| && got == ds[..|got|] && rest == Frames(ds[|got|..]) && GoesOn(rest, room, |got|, |ds|)
  {
    assert Frames(ds) + [] == Frames(ds);
    ReceivesNoMore(ds, [], room, got, rest);
    assert Frames(ds[|got|..]) + [] == Frames(ds[|got|..]);
    if |got| < |ds| {
      NeverFails(ds, [], room, got, rest);
    } else {
      assert ds[|got|..] == [];
    }
  }

  lemma {:induction false} StepGot(stream: Key, pos: nat, sent: seq<Datagram>, got: seq<Datagram>, room: nat,
                                   done: seq<Datagram>, pos': nat, n: nat)
    requires InStep(stream, pos, sent, got) && AllFit(sent, room) && pos' <= |stream| && n == |got| + |done|
    requires Reads(stream[pos..], room, done, stream[pos'..])
    ensures InStep(stream, pos', sent, got + done) && GoesOn(stream[pos'..], room, n, |sent|)
  {
    var rest := stream[pos'..];
    SuffixFits(sent, |got|, room);
    WholeFrames(sent[|got|..], room, done, rest);
    assert GoesOn(rest, room, n, |sent|);
    InStepOn(stream, pos', sent, got, done, n);
  }

  lemma {:induction false} InStepOn(stream: Key, pos: nat, sent: seq<Datagram>, got: seq<Datagram>,
                                    done: seq<Datagram>, n: nat)
    requires pos <= |stream| && n == |got| + |done| <= |sent| && got == sent[..|got|]
    requires done == sent[|got|..][..|done|] && stream[pos..] == Frames(sent[|got|..][|done|..])
    ensures InStep(stream, pos, sent, got + done)
  {
    Cuts(sent, |got|, |done|);
  }

  lemma {:induction false} SuffixFits(ds: seq<Datagram>, i: nat, room: nat)
    requires AllFit(ds, room) && i <= |ds|
    ensures AllFit(ds[i..], room)
  {}

  lemma {:induction false} Cuts<T>(s: seq<T>, i: nat, j: nat)
    requires i + j <= |s|
    ensures s[..i] + s[i..][..j] == s[..i + j] && s[i..][j..] == s[i + j..]
  {}

  /** One receive: its result is the number of messages or says that there are none, and it gets everything if it
      may go on for long enough. */
  method Gather(stream: Key, pos: nat, room: nat, arrivals: seq<Arrival>, nonblock: bool, end: Ending,
                ghost sent: seq<Datagram>, got: seq<Datagram>)
    returns (got': seq<Datagram>, pos': nat)
    requires InStep(stream, pos, sent, got) && AllFit(sent, room)
    ensures InStep(stream, pos', sent, got')
    ensures Flowing(arrivals) && |arrivals| >= |sent| ==> got' == sent
  {
    var r, msgs;
    r, msgs, pos' := Receive(stream, pos, room, arrivals, nonblock, end);
    StepGot(stream, pos, sent, got, room, msgs, pos', |got| + |msgs|);
    got' := got + if r > 0 then msgs[..r] else [];
    assert got' == got + msgs;
  }

  /** Any batches, sent and received in any order with any pauses: what has been received is what was sent, in
      order, no receive fails, and a last receive that may go on for long enough gets all the rest. */
  method Relay(acts: seq<Act>, room: nat, nonblock: bool, end: Ending) returns (got: seq<Datagram>)
    requires AllFit(AllSent(acts), room)
    ensures |got| <= |AllSent(acts)| && got == AllSent(acts)[..|got|]
    ensures acts != [] && (var a := acts[|acts| - 1];
            a.Collect? && Flowing(a.arrivals) && |a.arrivals| >= |AllSent(acts)|) ==>
              got == AllSent(acts)
  {
    var stream: Key, pos: nat := [], 0;
    got := [];
    for k := 0 to |acts|
      invariant InStep(stream, pos, AllSent(acts[..k]), got)
      invariant k > 0 && (var a := acts[k - 1];
                a.Collect? && Flowing(a.arrivals) && |a.arrivals| >= |AllSent(acts[..k])|) ==>
                  got == AllSent(acts[..k])
    {
      ghost var sent := AllSent(acts[..k]);
      SentFit(acts, k + 1, room);
      SentMore(acts, k, room);
      assert sent + [] == sent;
      match acts[k] {
        case Transmit(msgs) =>
          var b := Send(msgs);
          StepSent(stream, pos, sent, got, msgs);
          stream := stream + b.value;
        case Collect(arrivals) =>
          got, pos := Gather(stream, pos, room, arrivals, nonblock, end, sent, got);
      }
    }
    assert acts[..|acts|] == acts;
  }
}
