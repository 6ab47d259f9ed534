/** What is on the wire, byte by byte (sections 3, 4 and 6 of RFC 1928, section 2 of RFC 1929), and what either side
    makes of the bytes of any peer. */
module Socks5Wire {
  import opened Options
  import opened Ordering
  import opened Socks5Messages
  import opened Socks5
  import opened Socks5Safety

  // ---- The bytes of a handshake ----

  /** An address: 1 and 4 bytes, 4 and 16 bytes, or 3, a length and a name; then the port. */
  function WireAddr(a: Addr): Key
    requires ValidAddr(a)
  {
    match a
    case Ipv4(b) => [1] + b
    case Ipv6(b) => [4] + b
    case Name(n, p) => [3, |n|] + n + p
  }

  /** Version 1, and name and password, each behind its length. */
  function WireCreds(user: Key, pass: Key): Key
    requires |user| < 256 && |pass| < 256
  {
    [1, |user|] + user + [|pass|] + pass
  }

  /** The greeting offers one method, 0 or 2. */
  function WireGreeting(s: Setup): Key {
    [5, 1, if s.creds.None? then 0 else 2]
  }

  function WireUser(s: Setup): Key {
    if s.creds.None? then []
    else
      var u, p := s.creds.value.user, s.creds.value.pass;
      WireCreds(u[..|u| % 256], p[..|p| % 256])
  }

  function WireRequest(s: Setup): Key
    requires ValidAddr(s.addr)
  {
    [5, s.cmd, 0] + WireAddr(s.addr)
  }

  /** All that a client has to say. */
  function WireClient(s: Setup): Key
    requires ValidAddr(s.addr)
  {
    WireGreeting(s) + (WireUser(s) + WireRequest(s))
  }

  /** The method, the welcome to the user, and the success with an address. */
  function WireServer(s: Setup): Key
    requires ValidAddr(s.bound)
  {
    (if s.users.None? then [5, 0] else [5, 2, 1, 0]) + ([5, 0, 0] + WireAddr(s.bound))
  }

  lemma {:induction false} AddrOnWire(a: Addr)
    requires ValidAddr(a)
    ensures AddrBytes(a) == WireAddr(a)
  {}

  lemma {:induction false} CredsOnWire(s: Setup)
    ensures CredsBytes(s.creds) == WireUser(s)
  {
    if s.creds.Some? {
      var u, p := Cut(s.creds.value.user), Cut(s.creds.value.pass);
      assert [1, |u|] + (u + ([|p|] + p)) == [1, |u|] + u + [|p|] + p;
    }
  }

  lemma {:induction false} FullOnWire(s: Setup)
    requires ValidAddr(s.addr)
    ensures Methods(s.creds) == WireGreeting(s) && CredsBytes(s.creds) == WireUser(s) && Request(s) == WireRequest(s)
    ensures Full(s) == WireClient(s)
  {
    AddrOnWire(s.addr);
    CredsOnWire(s);
  }

  /** In every run that ends connected, exactly these bytes were sent in both directions, and the command is 1
      (connect), 3 (associate) or 5 (forward). */
  lemma {:induction false} ConnectedWire(s: Setup, moves: seq<Move>)
    requires ValidSetup(s) && Run(s, moves).Some? && Run(s, moves).value.client.Connected?
    ensures var net := Run(s, moves).value; net.up.log == WireClient(s) && net.down.log == WireServer(s)
    ensures s.cmd == 1 || s.cmd == 3 || s.cmd == 5
  {
    var x := RunKeeps(s, moves);
    FullOnWire(s);
    AddrOnWire(s.bound);
  }

  /** In every run, connected or not, the client has sent a first part of these bytes. */
  lemma {:induction false} SentWire(s: Setup, moves: seq<Move>)
    requires ValidSetup(s) && Run(s, moves).Some?
    ensures Run(s, moves).value.up.log <= WireClient(s)
  {
    var x := RunKeeps(s, moves);
    FullOnWire(s);
  }

  // ---- A client and any server ----

  function ClientRank(s: Setup, c: Client): nat {
    match c
    case SendMethods => 8
    case SendCreds => if s.pipelined then 7 else 6
    case SendRequest => if s.pipelined then 6 else 4
    case ReadMethod => if s.pipelined then 5 else 7
    case ReadCreds => if s.pipelined then 4 else 5
    case ReadHead => 2
    case ReadAddress(_) => 1
    case _ => 0
  }

  /** What becomes of a client that reads `d`, all that the server ever says, and what it sends. */
  function Talk(s: Setup, c: Client, d: Key): (Client, Key)
    requires ValidAddr(s.addr)
    decreases ClientRank(s, c)
  {
    if Over(c) then (c, [])
    else if ToSend(s, c).Some? then
      var (end, up) := Talk(s, AfterSend(s, c), d);
      (end, ToSend(s, c).value + up)
    else
      var n := ToRead(c).value;
      if |d| < n then (Refused, []) else Talk(s, AfterRead(s, c, d[..n]), d[n..])
  }

  lemma {:induction false} TalkSends(s: Setup, c: Client, d: Key)
    requires ValidAddr(s.addr) && ToSend(s, c).Some?
    ensures Talk(s, c, d) == (Talk(s, AfterSend(s, c), d).0, ToSend(s, c).value + Talk(s, AfterSend(s, c), d).1)
  {}

  lemma {:induction false} TalkReads(s: Setup, c: Client, d: Key, n: nat)
    requires ValidAddr(s.addr) && ToRead(c) == Some(n)
    ensures Talk(s, c, d) == if |d| < n then (Refused, []) else Talk(s, AfterRead(s, c, d[..n]), d[n..])
  {}

  /** The answer to a request: version 5, success, and an address of 4 or 16 bytes with its port. */
  predicate Granted(d: Key) {
    |d| >= 4 && d[0] == 5 && d[1] == 0 && ((d[3] == 1 && |d| >= 10) || (d[3] == 4 && |d| >= 22))
  }

  lemma {:induction false} TalkHead(s: Setup, d: Key)
    requires ValidAddr(s.addr)
    ensures Talk(s, ReadHead, d) == (if Granted(d) && s.upstream then Connected else Refused, [])
  {
    TalkReads(s, ReadHead, d, 4);
    if |d| >= 4 {
      var c := AfterRead(s, ReadHead, d[..4]);
      if c.ReadAddress? {
        TalkReads(s, c, d[4..], c.n);
      }
    }
  }

  /** What the server has to say to the methods, and to the credentials if it chooses method 2. */
  predicate Welcomed(d: Key) {
    |d| >= 2 && d[0] == 5 && (d[1] == 0 || (d[1] == 2 && |d| >= 4 && d[2] == 1 && d[3] == 0))
  }

  function Welcome(d: Key): nat
    requires Welcomed(d)
  {
    if d[1] == 0 then 2 else 4
  }

  /** A client is connected exactly if the server says what it should, whoever the server is. */
  predicate Answered(s: Setup, d: Key) {
    Welcomed(d) && Granted(d[Welcome(d)..]) && s.upstream
  }

  /** In standard mode the request is sent after the welcome, and the credentials only if they are asked for. */
  function SentAfter(s: Setup, d: Key): Key
    requires ValidAddr(s.addr)
  {
    if |d| < 2 || d[0] != 5 || (d[1] != 0 && d[1] != 2) then []
    else if d[1] == 0 then WireRequest(s)
    else WireUser(s) + if Welcomed(d) then WireRequest(s) else []
  }

  lemma {:induction false} StandardRequest(s: Setup, d: Key)
    requires ValidAddr(s.addr) && !s.pipelined
    ensures Talk(s, SendRequest, d) == (if Granted(d) && s.upstream then Connected else Refused, Request(s))
  {
    TalkSends(s, SendRequest, d);
    TalkHead(s, d);
    assert Request(s) + [] == Request(s);
  }

  lemma {:induction false} StandardCreds(s: Setup, d: Key)
    requires ValidAddr(s.addr) && !s.pipelined
    ensures var ok := |d| >= 2 && d[0] == 1 && d[1] == 0;
            Talk(s, SendCreds, d) == (if ok && Granted(d[2..]) && s.upstream then Connected else Refused,
                                      CredsBytes(s.creds) + if ok then Request(s) else [])
  {
    TalkSends(s, SendCreds, d);
    TalkReads(s, ReadCreds, d, 2);
    if |d| >= 2 {
      StandardRequest(s, d[2..]);
    }
  }

  lemma {:induction false} StandardMethod(s: Setup, d: Key)
    requires ValidAddr(s.addr) && !s.pipelined
    ensures Talk(s, ReadMethod, d) == (if Answered(s, d) then Connected else Refused, SentAfter(s, d))
  {
    FullOnWire(s);
    TalkReads(s, ReadMethod, d, 2);
    if |d| >= 2 {
      StandardRequest(s, d[2..]);
      StandardCreds(s, d[2..]);
      if |d| >= 4 {
        assert d[2..][2..] == d[4..];
      }
    }
  }

  lemma {:induction false} PipelinedMethod(s: Setup, d: Key)
    requires ValidAddr(s.addr) && s.pipelined
    ensures Talk(s, ReadMethod, d) == (if Answered(s, d) then Connected else Refused, [])
  {
    TalkReads(s, ReadMethod, d, 2);
    if |d| >= 2 {
      TalkHead(s, d[2..]);
      TalkReads(s, ReadCreds, d[2..], 2);
      if |d| >= 4 {
        assert d[2..][2..] == d[4..];
        TalkHead(s, d[4..]);
      }
    }
  }

  /** Any client and any server: the outcome for the client, and what it sends. */
  lemma {:induction false} ClientAnswered(s: Setup, d: Key)
    requires ValidAddr(s.addr)
    ensures Talk(s, SendMethods, d).0 == if Answered(s, d) then Connected else Refused
    ensures Talk(s, SendMethods, d).1 == if s.pipelined then WireClient(s) else WireGreeting(s) + SentAfter(s, d)
  {
    TalkSends(s, SendMethods, d);
    FullOnWire(s);
    if s.pipelined {
      TalkSends(s, SendCreds, d);
      TalkSends(s, SendRequest, d);
      PipelinedMethod(s, d);
      assert Request(s) + [] == Request(s);
    } else {
      StandardMethod(s, d);
    }
  }

  // ---- A server and any client ----

  function ServerRank(v: Server): nat {
    match v
    case Greeting => 11
    case MethodList(_) => 10
    case Reply(_) => 9
    case UserHead => 8
    case UserName(_) => 7
    case UserPass(_, _) => 6
    case UserReply(_) => 5
    case RequestHead => 4
    case RequestAddr(_) => 3
    case Acting(_, _) => 2
    case Respond(_, _, _) => 1
    case _ => 0
  }

  /** What becomes of a server that reads `u`, all that the client ever says, and what it says. */
  ghost function Serve(s: Setup, v: Server, u: Key): (Server, Key)
    requires ValidSetup(s)
    decreases ServerRank(v)
  {
    if Ended(v) then (v, [])
    else if v.Acting? then Serve(s, Act(s, v.cmd, v.addr), u)
    else if Says(s, v).Some? then
      var (end, down) := Serve(s, AfterSaying(v), u);
      (end, Says(s, v).value + down)
    else if Expects(v).None? then (v, [])
    else
      var n := Expects(v).value;
      if |u| < n then Serve(s, Starve(s, v), u) else Serve(s, Receive(s, v, u[..n]), u[n..])
  }

  lemma {:induction false} ServeSays(s: Setup, v: Server, u: Key)
    requires ValidSetup(s) && Says(s, v).Some?
    ensures Serve(s, v, u) == (Serve(s, AfterSaying(v), u).0, Says(s, v).value + Serve(s, AfterSaying(v), u).1)
  {}

  lemma {:induction false} ServeReads(s: Setup, v: Server, u: Key, n: nat)
    requires ValidSetup(s) && Expects(v) == Some(n)
    ensures Serve(s, v, u) ==
            if |u| < n then Serve(s, Starve(s, v), u) else Serve(s, Receive(s, v, u[..n]), u[n..])
  {}

  /** The length of an address by its type: 4 and 16 bytes, or a name as long as its length byte says. */
  function WireLen(atype: Byte, second: Byte): Option<nat> {
    if atype == 1 then Some(7) else if atype == 4 then Some(19) else if atype == 3 then Some(4 + second) else None
  }

  /** The code that a request is answered with: 0 success, 1 failure, 4 host unreachable, 7 command not supported, 8
      address not supported. */
  function RequestCode(s: Setup, t: Key): Byte
    requires |t| >= 5
  {
    if t[0] != 5 then 1
    else if WireLen(t[3], t[4]).None? || |t| < 3 + WireLen(t[3], t[4]).value || !s.resolves then 8
    else if t[1] != 1 && t[1] != 3 && t[1] != 5 then 7
    else if s.acts then 0
    else if t[1] == 1 then 4
    else 1
  }

  lemma {:induction false} ServeRespond(s: Setup, rep: Byte, cmd: Byte, addr: Addr, u: Key)
    requires ValidSetup(s)
    ensures Serve(s, Respond(rep, cmd, addr), u) ==
            (if rep == 0 then Serving(cmd, addr) else Closed, [5, rep, 0] + WireAddr(s.bound))
  {
    AddrOnWire(s.bound);
    ServeSays(s, Respond(rep, cmd, addr), u);
    var b := [5, rep, 0] + WireAddr(s.bound);
    assert b + [] == b;
  }

  /** The server ends serving `cmd` for the address that is `b` on the wire, if the code is 0, and closed if not. */
  ghost predicate EndsWith(s: Setup, code: Byte, cmd: Byte, b: Key, got: (Server, Key))
    requires ValidAddr(s.bound)
  {
    && got.1 == [5, code, 0] + WireAddr(s.bound)
    && if code != 0 then got.0 == Closed
       else got.0.Serving? && got.0.cmd == cmd && ValidAddr(got.0.addr) && WireAddr(got.0.addr) == b
  }

  lemma {:induction false} Decoded(b: Key)
    requires |b| >= 2 && WireLen(b[0], b[1]) == Some(|b|)
    ensures AddrLen(b[0], b[1]) == Some(|b|)
    ensures var a := DecodeAddr(b); a.Some? && ValidAddr(a.value) && WireAddr(a.value) == b
  {
    if b[0] == 3 {
      var n := b[1] as int;
      assert b == [3, n] + b[2..2 + n] + b[2 + n..];
    } else {
      assert b == [b[0]] + b[1..];
    }
  }

  lemma {:induction false} ServeResolved(s: Setup, cmd: Byte, b: Key, u: Key)
    requires ValidSetup(s) && |b| >= 2 && WireLen(b[0], b[1]) == Some(|b|)
    ensures var code := if !s.resolves then 8
                        else if cmd != 1 && cmd != 3 && cmd != 5 then 7
                        else if s.acts then 0
                        else if cmd == 1 then 4
                        else 1;
            EndsWith(s, code, cmd, b, Serve(s, Resolve(s, cmd, b), u))
  {
    Decoded(b);
    var v := Resolve(s, cmd, b);
    if v.Acting? {
      var w := Act(s, v.cmd, v.addr);
      ServeRespond(s, w.rep, w.cmd, w.addr, u);
    } else {
      ServeRespond(s, v.rep, v.cmd, v.addr, u);
    }
  }

  /** The bytes of the address in a request, as far as they are there. */
  function AddrPart(t: Key): Key
    requires |t| >= 5
  {
    var n := if WireLen(t[3], t[4]).None? then 0 else WireLen(t[3], t[4]).value;
    if |t| < 3 + n then [] else t[3..3 + n]
  }

  /** The answer to any request. */
  lemma {:induction false} RequestAnswered(s: Setup, t: Key)
    requires ValidSetup(s)
    ensures var got := Serve(s, RequestHead, t);
            if |t| < 5 then got == (Closed, []) else EndsWith(s, RequestCode(s, t), t[1], AddrPart(t), got)
  {
    ServeReads(s, RequestHead, t, 5);
    if |t| >= 5 {
      var head := t[..5];
      var v := Receive(s, RequestHead, head);
      if v.Respond? {
        ServeRespond(s, v.rep, v.cmd, v.addr, t[5..]);
      } else {
        AddrAnswered(s, t, head);
      }
    }
  }

  lemma {:induction false} AddrAnswered(s: Setup, t: Key, head: Key)
    requires ValidSetup(s) && |t| >= 5 && head == t[..5] && t[0] == 5 && WireLen(t[3], t[4]).Some?
    ensures EndsWith(s, RequestCode(s, t), t[1], AddrPart(t), Serve(s, RequestAddr(head), t[5..]))
  {
    var n := WireLen(t[3], t[4]).value;
    var u := t[5..];
    ServeReads(s, RequestAddr(head), u, n - 2);
    if |u| < n - 2 {
      ServeRespond(s, 8, 0, s.bound, u);
    } else {
      var b := head[3..] + u[..n - 2];
      assert b == t[3..3 + n];
      ServeResolved(s, head[1], b, u[n - 2..]);
    }
  }

  // ---- The methods and the user ----

  /** Version 5 and a list of methods that holds `m`. */
  predicate Offers(u: Key, m: Byte) {
    |u| >= 2 && u[0] == 5 && |u| >= 2 + u[1] as int && m in u[2..2 + u[1] as int]
  }

  lemma {:induction false} ServeReply(s: Setup, m: Byte, u: Key)
    requires ValidSetup(s) && (m == 0 || m == 2 || m == 255)
    ensures var next := if m == 0 then RequestHead else if m == 2 then UserHead else Closed;
            Serve(s, Reply(m), u) == (Serve(s, next, u).0, [5, m] + Serve(s, next, u).1)
  {
    ServeSays(s, Reply(m), u);
  }

  lemma {:induction false} ServeDeny(s: Setup, u: Key)
    requires ValidSetup(s)
    ensures Serve(s, Reply(255), u) == (Closed, [5, 255])
  {
    ServeReply(s, 255, u);
    assert [5, 255] + [] == [5, 255];
  }

  /** The answer to any greeting: the wanted method, 2 if there are users and 0 if not, or 255. */
  lemma {:induction false} GreetingAnswered(s: Setup, u: Key)
    requires ValidSetup(s)
    ensures var m: Byte := if s.users.None? then 0 else 2;
      if !Offers(u, m) then Serve(s, Greeting, u) == (Closed, [5, 255])
      else
        var rest := Serve(s, if s.users.None? then RequestHead else UserHead, u[2 + u[1] as int..]);
        Serve(s, Greeting, u) == (rest.0, [5, m] + rest.1)
  {
    ServeReads(s, Greeting, u, 2);
    if |u| < 2 {
      ServeDeny(s, u);
    } else if u[0] != 5 {
      ServeDeny(s, u[2..]);
    } else {
      var n := u[1] as int;
      ServeReads(s, MethodList(n), u[2..], n);
      if |u| < 2 + n {
        ServeDeny(s, u[2..]);
      } else {
        assert u[2..][..n] == u[2..2 + n] && u[2..][n..] == u[2 + n..];
        if Offers(u, Wanted(s)) {
          ServeReply(s, Wanted(s), u[2 + n..]);
        } else {
          ServeDeny(s, u[2 + n..]);
        }
      }
    }
  }

  datatype Login = Login(name: Key, pass: Key, rest: Key)

  /** Version 1, a name and a password, neither of them empty. */
  function LoginOf(t: Key): Option<Login> {
    if |t| < 2 || t[0] != 1 || t[1] == 0 then None
    else
      var n := t[1] as int;
      if |t| < 3 + n || t[2 + n] == 0 then None
      else
        var m := t[2 + n] as int;
        if |t| < 3 + n + m then None else Some(Login(t[2..2 + n], t[3 + n..3 + n + m], t[3 + n + m..]))
  }

  lemma {:induction false} ServeUserReply(s: Setup, ok: bool, u: Key)
    requires ValidSetup(s)
    ensures Serve(s, UserReply(ok), u) ==
            if ok then (Serve(s, RequestHead, u).0, [1, 0] + Serve(s, RequestHead, u).1) else (Closed, [1, 255])
  {
    ServeSays(s, UserReply(ok), u);
    assert [1, 255] + [] == [1, 255];
  }

  /** 0 for a user that has this password, 255 for anybody else. */
  ghost predicate LoginAnswered(s: Setup, login: Option<Login>, got: (Server, Key))
    requires ValidSetup(s) && s.users.Some?
  {
    var users := s.users.value;
    if login.Some? && login.value.name in users && users[login.value.name] == login.value.pass then
      var rest := Serve(s, RequestHead, login.value.rest);
      got == (rest.0, [1, 0] + rest.1)
    else got == (Closed, [1, 255])
  }

  /** The answer to any credentials. */
  lemma {:induction false} UserAnswered(s: Setup, t: Key)
    requires ValidSetup(s) && s.users.Some?
    ensures LoginAnswered(s, LoginOf(t), Serve(s, UserHead, t))
  {
    ServeReads(s, UserHead, t, 2);
    if |t| < 2 {
      ServeUserReply(s, false, t);
    } else if t[0] != 1 || t[1] == 0 {
      ServeUserReply(s, false, t[2..]);
    } else {
      NameAnswered(s, t, t[1]);
    }
  }

  lemma {:induction false} NameAnswered(s: Setup, t: Key, n: nat)
    requires ValidSetup(s) && s.users.Some? && |t| >= 2 && t[0] == 1 && t[1] == n && n > 0
    ensures LoginAnswered(s, LoginOf(t), Serve(s, UserName(n), t[2..]))
  {
    ServeReads(s, UserName(n), t[2..], n + 1);
    if |t| < 3 + n {
      ServeUserReply(s, false, t[2..]);
    } else {
      assert t[2..][..n + 1][n] == t[2 + n] && t[2..][..n + 1][..n] == t[2..2 + n] && t[2..][n + 1..] == t[3 + n..];
      if t[2 + n] == 0 {
        ServeUserReply(s, false, t[3 + n..]);
      } else {
        var m, u := t[2 + n] as int, t[3 + n..];
        assert |u| >= m ==> u[..m] == t[3 + n..3 + n + m] && u[m..] == t[3 + n + m..];
        PassAnswered(s, t[2..2 + n], m, u, LoginOf(t));
      }
    }
  }

  lemma {:induction false} PassAnswered(s: Setup, name: Key, m: nat, u: Key, login: Option<Login>)
    requires ValidSetup(s) && s.users.Some?
    requires login == if |u| < m then None else Some(Login(name, u[..m], u[m..]))
    ensures LoginAnswered(s, login, Serve(s, UserPass(name, m), u))
  {
    ServeReads(s, UserPass(name, m), u, m);
    if |u| < m {
      ServeUserReply(s, false, u);
    } else {
      ServeUserReply(s, name in s.users.value && s.users.value[name] == u[..m], u[m..]);
    }
  }
}
