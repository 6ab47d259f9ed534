/** What holds in every reachable state of the handshake, whatever the interleaving and the failures. */
module Socks5Safety {
  import opened Options
  import opened Ordering
  import opened Socks5Messages
  import opened Socks5

  /** All that the client has to say. */
  function Full(s: Setup): Key
    requires ValidAddr(s.addr)
  {
    Methods(s.creds) + (CredsBytes(s.creds) + Request(s))
  }

  function Early(s: Setup): nat {
    3 + |CredsBytes(s.creds)|
  }

  predicate Agree(s: Setup) {
    s.creds.Some? == s.users.Some?
  }

  /** The client and the server want the same method and the server knows the user. */
  predicate Admitted(s: Setup) {
    && Agree(s)
    && (s.users.Some? ==>
          var u, p := Cut(s.creds.value.user), Cut(s.creds.value.pass);
          u != [] && p != [] && u in s.users.value && s.users.value[u] == p)
  }

  predicate Good(s: Setup) {
    Admitted(s) && s.resolves && s.acts
  }

  /** What the server has said. */
  datatype Said = Silent | Denied | Asked | Rejected | Ready | Answered(rep: Byte)

  function Opening(s: Setup): Key {
    if s.users.Some? then [VERSION, METHOD_USER, AUTH_VERSION, 0] else [VERSION, METHOD_NONE]
  }

  function SaidBytes(s: Setup, x: Said): Key
    requires ValidAddr(s.bound)
  {
    match x
    case Silent => []
    case Denied => [VERSION, METHOD_DENY]
    case Asked => [VERSION, METHOD_USER]
    case Rejected => [VERSION, METHOD_USER, AUTH_VERSION, 255]
    case Ready => Opening(s)
    case Answered(rep) => Opening(s) + ([VERSION, rep, 0] + AddrBytes(s.bound))
  }

  predicate SaidFits(s: Setup, x: Said) {
    match x
    case Silent => true
    case Denied => true
    case Asked => Agree(s) && s.users.Some?
    case Rejected => Agree(s) && s.users.Some?
    case Ready => Admitted(s)
    case Answered(rep) => Admitted(s) && (rep == REP_SUCC ==> Good(s))
  }

  /** Where the server is, how much it has read and what it has said. */
  predicate ServerAt(s: Setup, v: Server, read: nat, x: Said)
    requires ValidSetup(s)
  {
    match v
    case Greeting => x == Silent && read == 0
    case MethodList(n) => x == Silent && read == 2 && n == 1
    case Reply(m) => x == Silent && (m == METHOD_DENY || (m == Wanted(s) && Agree(s) && read == 3))
    case UserHead => x == Asked && read == 3
    case UserName(n) => x == Asked && s.creds.Some? && n == |Cut(s.creds.value.user)| > 0 && read == 5
    case UserPass(name, n) =>
      && x == Asked && s.creds.Some? && name == Cut(s.creds.value.user) != [] && n == |Cut(s.creds.value.pass)| > 0
      && read == 6 + |name|
    case UserReply(ok) => x == Asked && (ok ==> Admitted(s) && read == Early(s))
    case RequestHead => x == Ready && read == Early(s)
    case RequestAddr(head) => x == Ready && read == Early(s) + 5 && head == Request(s)[..5]
    case Acting(cmd, addr) => x == Ready && read == |Full(s)| && cmd == s.cmd && addr == s.addr && s.resolves
    case Respond(rep, cmd, addr) =>
      x == Ready && (rep == REP_SUCC ==> read == |Full(s)| && s.resolves && s.acts && cmd == s.cmd && addr == s.addr)
    case Serving(cmd, addr) => x == Answered(REP_SUCC) && read == |Full(s)| && cmd == s.cmd && addr == s.addr
    case Closed => x != Answered(REP_SUCC)
  }

  predicate HasAsked(x: Said) {
    x.Asked? || x.Rejected? || x.Ready? || x.Answered?
  }

  predicate HasOpened(x: Said) {
    x.Ready? || x.Answered?
  }

  /** Where the client is, how much it has read and what there is to read. */
  predicate ClientAt(s: Setup, c: Client, read: nat, x: Said)
    requires ValidSetup(s)
  {
    match c
    case SendMethods => read == 0
    case SendCreds => if s.pipelined then read == 0 else read == 2 && s.users.Some? && HasAsked(x)
    case SendRequest => if s.pipelined then read == 0 else read == |Opening(s)| && HasOpened(x)
    case ReadMethod => read == 0
    case ReadCreds => read == 2 && s.users.Some? && HasAsked(x)
    case ReadHead => read == |Opening(s)| && HasOpened(x)
    case ReadAddress(n) => x == Answered(REP_SUCC) && read == |Opening(s)| + 4 && n == |AddrBytes(s.bound)| - 1
    case Connected => x == Answered(REP_SUCC) && read == |SaidBytes(s, x)| && s.upstream
    case Refused => true
  }

  /** How much the client has sent. */
  function SentLen(s: Setup, c: Client): nat
    requires ValidAddr(s.addr)
  {
    match c
    case SendMethods => 0
    case SendCreds => 3
    case SendRequest => Early(s)
    case ReadMethod => if s.pipelined then |Full(s)| else 3
    case ReadCreds => if s.pipelined then |Full(s)| else Early(s)
    case _ => |Full(s)|
  }

  ghost predicate Inv(s: Setup, net: Net, x: Said)
    requires ValidSetup(s)
  {
    && net.up.log <= Full(s) && (!net.client.Refused? ==> |net.up.log| == SentLen(s, net.client))
    && net.up.read <= |net.up.log| && net.down.read <= |net.down.log|
    && net.down.log == SaidBytes(s, x) && SaidFits(s, x)
    && ServerAt(s, net.server, net.up.read, x) && ClientAt(s, net.client, net.down.read, x)
  }

  // ---- What the server reads ----

  lemma {:induction false} FullParts(s: Setup)
    requires ValidSetup(s)
    ensures |Full(s)| == Early(s) + |Request(s)| && |Request(s)| >= 7
    ensures Full(s)[..2] == [VERSION, 1] && Full(s)[2..3] == [if s.creds.None? then METHOD_NONE else METHOD_USER]
    ensures Full(s)[3..Early(s)] == CredsBytes(s.creds) && Full(s)[Early(s)..] == Request(s)
  {
    AddrRoundTrip(s.addr);
    var f := Full(s);
    assert f[0] == VERSION && f[1] == 1;
    assert f[..2] == [f[0], f[1]];
    var m, c, r := Methods(s.creds), CredsBytes(s.creds), Request(s);
    assert (m + (c + r))[|m|..|m| + |c|] == c && (m + (c + r))[|m| + |c|..] == r;
  }

  lemma {:induction false} Slice(a: Key, i: nat, j: nat, k: nat, l: nat)
    requires i <= j <= |a| && k <= l <= j - i
    ensures a[i..j][k..l] == a[i + k..i + l]
  {
    assert forall m | 0 <= m < l - k :: a[i..j][k..l][m] == a[i + k + m];
  }

  lemma {:induction false} CredsParts(s: Setup)
    requires ValidSetup(s) && s.creds.Some?
    ensures var u, p, f := Cut(s.creds.value.user), Cut(s.creds.value.pass), Full(s);
      && Early(s) == 6 + |u| + |p| <= |f|
      && f[3..5] == [AUTH_VERSION, |u|] && f[5..6 + |u|] == u + [|p|] && f[6 + |u|..Early(s)] == p
  {
    var u, p, f := Cut(s.creds.value.user), Cut(s.creds.value.pass), Full(s);
    var c := CredsBytes(s.creds);
    FullParts(s);
    assert c[..2] == [AUTH_VERSION, |u|] && c[2..3 + |u|] == u + [|p|] && c[3 + |u|..] == p;
    Slice(f, 3, Early(s), 0, 2);
    Slice(f, 3, Early(s), 2, 3 + |u|);
    Slice(f, 3, Early(s), 3 + |u|, |c|);
  }

  lemma {:induction false} RequestParts(s: Setup)
    requires ValidSetup(s)
    ensures var f, r := Full(s), Request(s);
      && Early(s) + 5 <= |f| && f[Early(s)..Early(s) + 5] == r[..5] && f[Early(s) + 5..] == r[5..]
      && r[0] == VERSION && r[1] == s.cmd && r[3..5] + r[5..] == AddrBytes(s.addr)
      && AddrLen(r[3], r[4]) == Some(|AddrBytes(s.addr)|) && |r| == 3 + |AddrBytes(s.addr)|
  {
    FullParts(s);
    AddrRoundTrip(s.addr);
    var f, r := Full(s), Request(s);
    Slice(f, Early(s), |f|, 0, 5);
    Slice(f, Early(s), |f|, 5, |r|);
    assert r[3..] == AddrBytes(s.addr);
  }

  /** The bytes that the server gets are those of the client's script. */
  lemma {:induction false} FrontIs(s: Setup, net: Net, x: Said, n: nat)
    requires ValidSetup(s) && Inv(s, net, x) && Has(net.up, n)
    ensures net.up.read + n <= |Full(s)| && Front(net.up, n) == Full(s)[net.up.read..net.up.read + n]
  {}

  lemma {:induction false} ServerHearsMethods(s: Setup, v: Server, read: nat, x: Said, b: Key)
    requires ValidSetup(s) && ServerAt(s, v, read, x) && SaidFits(s, x) && (v.Greeting? || v.MethodList?)
    requires Expects(v) == Some(|b|) && read + |b| <= |Full(s)| && b == Full(s)[read..read + |b|]
    ensures ServerAt(s, Receive(s, v, b), read + |b|, x)
  {
    FullParts(s);
  }

  lemma {:induction false} ServerHearsUser(s: Setup, v: Server, read: nat, x: Said, b: Key)
    requires ValidSetup(s) && ServerAt(s, v, read, x) && SaidFits(s, x) && (v.UserHead? || v.UserName? || v.UserPass?)
    requires Expects(v) == Some(|b|) && read + |b| <= |Full(s)| && b == Full(s)[read..read + |b|]
    ensures ServerAt(s, Receive(s, v, b), read + |b|, x)
  {
    CredsParts(s);
  }

  lemma {:induction false} ServerHearsHead(s: Setup, read: nat, x: Said, b: Key)
    requires ValidSetup(s) && ServerAt(s, RequestHead, read, x) && |b| == 5 && b == Request(s)[..5]
    ensures ServerAt(s, Receive(s, RequestHead, b), read + 5, x) && Receive(s, RequestHead, b) == RequestAddr(b)
  {
    RequestParts(s);
    assert b[0] == Request(s)[0] && b[1] == Request(s)[1] && b[3] == Request(s)[3] && b[4] == Request(s)[4];
  }

  lemma {:induction false} ServerHearsAddr(s: Setup, head: Key, read: nat, x: Said, b: Key)
    requires ValidSetup(s) && ServerAt(s, RequestAddr(head), read, x) && |Request(s)| >= 5 && b == Request(s)[5..]
    requires Expects(RequestAddr(head)) == Some(|b|)
    ensures ServerAt(s, Receive(s, RequestAddr(head), b), read + |b|, x)
    ensures s.resolves ==> Receive(s, RequestAddr(head), b).Acting?
  {
    FullParts(s);
    RequestParts(s);
    AddrRoundTrip(s.addr);
    assert head[3..] == Request(s)[3..5];
    assert head[1] == Request(s)[1];
  }

  lemma {:induction false} ServerHearsRequest(s: Setup, v: Server, read: nat, x: Said, b: Key)
    requires ValidSetup(s) && ServerAt(s, v, read, x) && (v.RequestHead? || v.RequestAddr?)
    requires Expects(v) == Some(|b|) && read + |b| <= |Full(s)| && b == Full(s)[read..read + |b|]
    ensures ServerAt(s, Receive(s, v, b), read + |b|, x)
    ensures s.resolves ==> Receive(s, v, b).RequestAddr? || Receive(s, v, b).Acting?
  {
    RequestParts(s);
    match v
    case RequestHead => ServerHearsHead(s, read, x, b);
    case RequestAddr(head) =>
      assert Full(s)[read..|Full(s)|] == Full(s)[read..];
      ServerHearsAddr(s, head, read, x, b);
  }

  lemma {:induction false} ServerHeard(s: Setup, v: Server, read: nat, x: Said, b: Key)
    requires ValidSetup(s) && ServerAt(s, v, read, x) && SaidFits(s, x)
    requires Expects(v) == Some(|b|) && read + |b| <= |Full(s)| && b == Full(s)[read..read + |b|]
    ensures ServerAt(s, Receive(s, v, b), read + |b|, x)
  {
    if v.Greeting? || v.MethodList? {
      ServerHearsMethods(s, v, read, x, b);
    } else if v.RequestHead? || v.RequestAddr? {
      ServerHearsRequest(s, v, read, x, b);
    } else {
      ServerHearsUser(s, v, read, x, b);
    }
  }

  lemma {:induction false} ServerHears(s: Setup, net: Net, x: Said, n: nat)
    requires ValidSetup(s) && Inv(s, net, x) && Expects(net.server) == Some(n) && Has(net.up, n)
    ensures Inv(s, net.(server := Receive(s, net.server, Front(net.up, n)), up := Past(net.up, n)), x)
  {
    FrontIs(s, net, x, n);
    ServerHeard(s, net.server, net.up.read, x, Front(net.up, n));
  }

  // ---- What the server says ----

  function NowSaid(v: Server): Said
    requires v.Reply? || v.UserReply? || v.Respond?
  {
    match v
    case Reply(m) => if m == METHOD_NONE then Ready else if m == METHOD_USER then Asked else Denied
    case UserReply(ok) => if ok then Ready else Rejected
    case Respond(rep, _, _) => Answered(rep)
  }

  lemma {:induction false} ServerSays(s: Setup, v: Server, read: nat, x: Said)
    requires ValidSetup(s) && ServerAt(s, v, read, x) && SaidFits(s, x) && Says(s, v).Some?
    ensures var x' := NowSaid(v);
      SaidBytes(s, x') == SaidBytes(s, x) + Says(s, v).value && SaidFits(s, x') && ServerAt(s, AfterSaying(v), read, x')
  {}

  /** The client still stands right when the server has said more. */
  lemma {:induction false} ClientStays(s: Setup, c: Client, read: nat, v: Server, up: nat, x: Said)
    requires ValidSetup(s) && ClientAt(s, c, read, x) && ServerAt(s, v, up, x) && Says(s, v).Some?
    ensures ClientAt(s, c, read, NowSaid(v))
  {}

  lemma {:induction false} ServerSpeaks(s: Setup, net: Net, x: Said)
    requires ValidSetup(s) && Inv(s, net, x) && Says(s, net.server).Some?
    ensures var v := net.server;
      Inv(s, net.(server := AfterSaying(v), down := Write(net.down, Says(s, v).value)), NowSaid(v))
  {
    ServerSays(s, net.server, net.up.read, x);
    ClientStays(s, net.client, net.down.read, net.server, net.up.read, x);
  }

  /** The steps of the server that move no bytes. */
  lemma {:induction false} ServerTurns(s: Setup, v: Server, read: nat, x: Said)
    requires ValidSetup(s) && ServerAt(s, v, read, x)
    ensures v.Acting? ==> ServerAt(s, Act(s, v.cmd, v.addr), read, x)
    ensures Says(s, v).Some? ==> ServerAt(s, Closed, read, x)
    ensures Expects(v).Some? ==> ServerAt(s, Starve(s, v), read, x)
  {}

  lemma {:induction false} ServerKeeps(s: Setup, net: Net, x: Said, ok: bool) returns (x': Said)
    requires ValidSetup(s) && Inv(s, net, x) && ServerMove(s, net, ok).Some?
    ensures Inv(s, ServerMove(s, net, ok).value, x')
    ensures x' == if ok && Says(s, net.server).Some? then NowSaid(net.server) else x
  {
    x' := x;
    var v := net.server;
    if ok && Says(s, v).Some? {
      ServerSpeaks(s, net, x);
      x' := NowSaid(v);
    } else if ok && !v.Acting? {
      ServerHears(s, net, x, Expects(v).value);
    } else {
      ServerTurns(s, v, net.up.read, x);
    }
  }

  // ---- The client ----

  lemma {:induction false} PrefixGrows(log: Key, b: Key, f: Key)
    requires log <= f && |log| + |b| <= |f| && f[|log|..|log| + |b|] == b
    ensures log + b <= f
  {
    assert f[..|log| + |b|] == f[..|log|] + b;
  }

  lemma {:induction false} SendExtends(s: Setup, c: Client, log: Key)
    requires ValidSetup(s) && log <= Full(s) && |log| == SentLen(s, c) && ToSend(s, c).Some?
    ensures log + ToSend(s, c).value <= Full(s) && |log + ToSend(s, c).value| == SentLen(s, AfterSend(s, c))
  {
    FullParts(s);
    PrefixGrows(log, ToSend(s, c).value, Full(s));
  }

  lemma {:induction false} SendStands(s: Setup, c: Client, read: nat, x: Said)
    requires ValidSetup(s) && ClientAt(s, c, read, x) && ToSend(s, c).Some?
    ensures ClientAt(s, AfterSend(s, c), read, x) && !AfterSend(s, c).Refused?
  {}

  lemma {:induction false} ClientSends(s: Setup, net: Net, x: Said)
    requires ValidSetup(s) && Inv(s, net, x) && ToSend(s, net.client).Some?
    ensures Inv(s, net.(client := AfterSend(s, net.client), up := Write(net.up, ToSend(s, net.client).value)), x)
  {
    SendExtends(s, net.client, net.up.log);
    SendStands(s, net.client, net.down.read, x);
  }

  lemma {:induction false} HearsMethod(s: Setup, x: Said, b: Key)
    requires ValidSetup(s) && SaidFits(s, x) && 2 <= |SaidBytes(s, x)| && b == SaidBytes(s, x)[0..2]
    ensures ClientAt(s, AfterRead(s, ReadMethod, b), 2, x) && (AfterRead(s, ReadMethod, b).Refused? ==> x == Denied)
  {
    assert b[0] == SaidBytes(s, x)[0] && b[1] == SaidBytes(s, x)[1];
    assert HasOpened(x) ==> b[1] == Opening(s)[1];
  }

  lemma {:induction false} HearsCreds(s: Setup, x: Said, b: Key)
    requires ValidSetup(s) && SaidFits(s, x) && s.users.Some? && HasAsked(x)
    requires 4 <= |SaidBytes(s, x)| && b == SaidBytes(s, x)[2..4]
    ensures ClientAt(s, AfterRead(s, ReadCreds, b), 4, x) && (AfterRead(s, ReadCreds, b).Refused? ==> x == Rejected)
  {
    assert b[0] == SaidBytes(s, x)[2] && b[1] == SaidBytes(s, x)[3];
  }

  lemma {:induction false} HearsHead(s: Setup, x: Said, b: Key)
    requires ValidSetup(s) && SaidFits(s, x) && HasOpened(x)
    requires var o := |Opening(s)|; o + 4 <= |SaidBytes(s, x)| && b == SaidBytes(s, x)[o..o + 4]
    ensures ClientAt(s, AfterRead(s, ReadHead, b), |Opening(s)| + 4, x)
    ensures AfterRead(s, ReadHead, b).Refused? ==> x.Answered? && x.rep != REP_SUCC
  {
    AddrRoundTrip(s.bound);
    var o, r := Opening(s), [VERSION, x.rep, 0] + AddrBytes(s.bound);
    assert SaidBytes(s, x) == o + r;
    BytesBehind(o, r, b, 4);
    assert b[3] == AddrBytes(s.bound)[0];
  }

  lemma {:induction false} BytesBehind(o: Key, r: Key, b: Key, n: nat)
    requires |o| + n <= |o + r| && b == (o + r)[|o|..|o| + n]
    ensures b == r[..n] && |b| == n
  {}

  lemma {:induction false} HearsAddress(s: Setup, x: Said, n: nat, b: Key)
    requires ValidSetup(s) && x == Answered(REP_SUCC) && n == |AddrBytes(s.bound)| - 1 == |b|
    ensures ClientAt(s, AfterRead(s, ReadAddress(n), b), |Opening(s)| + 4 + n, x)
  {}

  lemma {:induction false} ClientHears(s: Setup, c: Client, read: nat, x: Said, n: nat)
    requires ValidSetup(s) && ClientAt(s, c, read, x) && SaidFits(s, x) && ToRead(c) == Some(n)
    requires read + n <= |SaidBytes(s, x)|
    ensures ClientAt(s, AfterRead(s, c, SaidBytes(s, x)[read..read + n]), read + n, x)
  {
    var b := SaidBytes(s, x)[read..read + n];
    match c
    case ReadMethod => HearsMethod(s, x, b);
    case ReadCreds => HearsCreds(s, x, b);
    case ReadHead => HearsHead(s, x, b);
    case ReadAddress(_) => HearsAddress(s, x, n, b);
  }

  lemma {:induction false} ClientKeeps(s: Setup, net: Net, x: Said, ok: bool)
    requires ValidSetup(s) && Inv(s, net, x) && ClientMove(s, net, ok).Some?
    ensures Inv(s, ClientMove(s, net, ok).value, x)
  {
    if ok {
      if ToSend(s, net.client).Some? {
        ClientSends(s, net, x);
      } else {
        ClientHears(s, net.client, net.down.read, x, ToRead(net.client).value);
      }
    }
  }

  lemma {:induction false} RunKeeps(s: Setup, moves: seq<Move>) returns (x: Said)
    requires ValidSetup(s) && Run(s, moves).Some?
    ensures Inv(s, Run(s, moves).value, x)
    decreases |moves|
  {
    if moves == [] {
      x := Silent;
    } else {
      var n := |moves| - 1;
      x := RunKeeps(s, moves[..n]);
      var net, m := Run(s, moves[..n]).value, moves[n];
      if m.client {
        ClientKeeps(s, net, x, m.ok);
      } else {
        x := ServerKeeps(s, net, x, m.ok);
      }
    }
  }

  /** If both sides succeed, the server has acted on exactly the command and the address of the client, and
      both channels have been read to the last byte. */
  lemma {:induction false} SuccessAgrees(s: Setup, moves: seq<Move>)
    requires ValidSetup(s) && Run(s, moves).Some?
    requires var net := Run(s, moves).value; net.client.Connected? && net.server.Serving?
    ensures var net := Run(s, moves).value;
      && net.server == Serving(s.cmd, s.addr)
      && net.up.log == Full(s) && net.up.read == |net.up.log| && net.down.read == |net.down.log|
  {
    var x := RunKeeps(s, moves);
  }
}
