/** The SOCKS5 handshake: a client, in standard or pipelined mode, and a server as two programs over two
    byte channels.  A step is one read, one write or one action of one side, so runs cover all
    interleavings.  A read takes exactly the bytes it asks for or fails. */
module Socks5 {
  import opened Options
  import opened Ordering
  import opened Socks5Messages

  datatype Creds = Creds(user: Key, pass: Key)

  /** What both sides are set up with, and what the environment answers. */
  datatype Setup = Setup(
    pipelined: bool,
    creds: Option<Creds>,            // of the client
    cmd: Byte,
    addr: Addr,
    upstream: bool,                  // the client accepts the address in the response
    users: Option<map<Key, Key>>,    // passwords by name, if the server asks for them
    resolves: bool,                  // the server can resolve the address
    acts: bool,                      // and can connect or bind
    bound: Addr)                     // the address in the response

  ghost predicate ValidSetup(s: Setup) {
    && ValidAddr(s.addr) && ValidAddr(s.bound) && !s.bound.Name?
    && (s.cmd == CMD_CONNECT || s.cmd == CMD_UDP_ASC || s.cmd == CMD_FWD_UDP)
  }

  /** All bytes ever written, and how many of them have been read. */
  datatype Wire = Wire(log: Key, read: nat)

  function Write(w: Wire, b: Key): Wire {
    w.(log := w.log + b)
  }

  predicate Has(w: Wire, n: nat) {
    w.read + n <= |w.log|
  }

  function Front(w: Wire, n: nat): (b: Key)
    requires Has(w, n)
    ensures |b| == n
  {
    w.log[w.read..w.read + n]
  }

  function Past(w: Wire, n: nat): Wire {
    w.(read := w.read + n)
  }

  // ---- The client ----

  datatype Client =
    | SendMethods | SendCreds | SendRequest | ReadMethod | ReadCreds | ReadHead | ReadAddress(n: nat)
    | Connected | Refused

  function Methods(creds: Option<Creds>): Key {
    [VERSION, 1, if creds.None? then METHOD_NONE else METHOD_USER]
  }

  /** The part of a name or password whose length fits into its length byte. */
  function Cut(k: Key): (r: Key)
    ensures |r| < 256
  {
    k[..|k| % 256]
  }

  function CredsBytes(creds: Option<Creds>): Key {
    if creds.None? then []
    else
      var u, p := Cut(creds.value.user), Cut(creds.value.pass);
      [AUTH_VERSION, |u|] + (u + ([|p|] + p))
  }

  function Request(s: Setup): Key
    requires ValidAddr(s.addr)
  {
    [VERSION, s.cmd, 0] + AddrBytes(s.addr)
  }

  function ToSend(s: Setup, c: Client): Option<Key>
    requires ValidAddr(s.addr)
  {
    match c
    case SendMethods => Some(Methods(s.creds))
    case SendCreds => Some(CredsBytes(s.creds))
    case SendRequest => Some(Request(s))
    case _ => None
  }

  function AfterSend(s: Setup, c: Client): Client {
    match c
    case SendMethods => if s.pipelined then SendCreds else ReadMethod
    case SendCreds => if s.pipelined then SendRequest else ReadCreds
    case SendRequest => if s.pipelined then ReadMethod else ReadHead
    case _ => c
  }

  function ToRead(c: Client): Option<nat> {
    match c
    case ReadMethod => Some(2)
    case ReadCreds => Some(2)
    case ReadHead => Some(4)
    case ReadAddress(n) => Some(n)
    case _ => None
  }

  function AfterRead(s: Setup, c: Client, b: Key): Client
    requires ToRead(c) == Some(|b|)
  {
    match c
    case ReadMethod =>
      if b[0] != VERSION then Refused
      else if b[1] == METHOD_USER then (if s.pipelined then ReadCreds else SendCreds)
      else if b[1] == METHOD_NONE then (if s.pipelined then ReadHead else SendRequest)
      else Refused
    case ReadCreds =>
      if b[0] != AUTH_VERSION || b[1] != REP_SUCC then Refused else if s.pipelined then ReadHead else SendRequest
    case ReadHead =>
      if b[0] != VERSION || b[1] != REP_SUCC then Refused
      else if b[3] == IPV4 then ReadAddress(6) else if b[3] == IPV6 then ReadAddress(18) else Refused
    case ReadAddress(_) => if s.upstream then Connected else Refused
    case _ => c
  }

  // ---- The server ----

  datatype Server =
    | Greeting
    | MethodList(n: nat)
    | Reply(choice: Byte)
    | UserHead
    | UserName(n: nat)
    | UserPass(name: Key, n: nat)
    | UserReply(ok: bool)
    | RequestHead
    | RequestAddr(head: Key)
    | Acting(cmd: Byte, addr: Addr)
    | Respond(rep: Byte, cmd: Byte, addr: Addr)
    | Serving(cmd: Byte, addr: Addr)
    | Closed

  function Wanted(s: Setup): Byte {
    if s.users.Some? then METHOD_USER else METHOD_NONE
  }

  function Expects(v: Server): Option<nat> {
    match v
    case Greeting => Some(2)
    case MethodList(n) => Some(n)
    case UserHead => Some(2)
    case UserName(n) => Some(n + 1)
    case UserPass(_, n) => Some(n)
    case RequestHead => Some(5)
    case RequestAddr(head) => if |head| == 5 && AddrLen(head[3],
        head[4]).Some? then Some(AddrLen(head[3], head[4]).value - 2) else None
    case _ => None
  }

  /** A read that was given its bytes. */
  function Receive(s: Setup, v: Server, b: Key): Server
    requires Expects(v) == Some(|b|)
  {
    match v
    case Greeting => if b[0] != VERSION then Reply(METHOD_DENY) else MethodList(b[1])
    case MethodList(_) => Reply(if Wanted(s) in b then Wanted(s) else METHOD_DENY)
    case UserHead => if b[0] != AUTH_VERSION || b[1] == 0 then UserReply(false) else UserName(b[1])
    case UserName(n) => if b[n] == 0 then UserReply(false) else UserPass(b[..n], b[n])
    case UserPass(name, _) =>
      UserReply(s.users.Some? && name in s.users.value && s.users.value[name] == b)
    case RequestHead =>
      if b[0] != VERSION then Respond(REP_FAIL, b[1], s.bound)
      else if AddrLen(b[3], b[4]).None? then Respond(REP_ADDR, b[1], s.bound)
      else RequestAddr(b)
    case RequestAddr(head) => Resolve(s, head[1], head[3..] + b)
    case _ => v
  }

  function Resolve(s: Setup, cmd: Byte, b: Key): Server {
    if !s.resolves || |b| < 2 || AddrLen(b[0], b[1]) != Some(|b|) then Respond(REP_ADDR, cmd, s.bound)
    else if cmd == CMD_CONNECT || cmd == CMD_UDP_ASC || cmd == CMD_FWD_UDP then Acting(cmd, DecodeAddr(b).value)
    else Respond(REP_IMPL, cmd, s.bound)
  }

  /** A read that failed. */
  function Starve(s: Setup, v: Server): Server {
    match v
    case Greeting => Reply(METHOD_DENY)
    case MethodList(_) => Reply(METHOD_DENY)
    case UserHead => UserReply(false)
    case UserName(_) => UserReply(false)
    case UserPass(_, _) => UserReply(false)
    case RequestAddr(head) => Respond(REP_ADDR, 0, s.bound)
    case _ => Closed
  }

  function Says(s: Setup, v: Server): Option<Key>
    requires ValidAddr(s.bound)
  {
    match v
    case Reply(m) => Some([VERSION, m])
    case UserReply(ok) => Some([AUTH_VERSION, if ok then 0 else 255])
    case Respond(rep, _, _) => Some([VERSION, rep, 0] + AddrBytes(s.bound))
    case _ => None
  }

  function AfterSaying(v: Server): Server {
    match v
    case Reply(m) => if m == METHOD_NONE then RequestHead else if m == METHOD_USER then UserHead else Closed
    case UserReply(ok) => if ok then RequestHead else Closed
    case Respond(rep, cmd, addr) => if rep == REP_SUCC then Serving(cmd, addr) else Closed
    case _ => v
  }

  /** connect or bind */
  function Act(s: Setup, cmd: Byte, addr: Addr): Server {
    Respond(if s.acts then REP_SUCC else if cmd == CMD_CONNECT then REP_HOST else REP_FAIL, cmd, addr)
  }

  // ---- Both together ----

  datatype Net = Net(client: Client, server: Server, up: Wire, down: Wire)

  const START := Net(SendMethods, Greeting, Wire([], 0), Wire([], 0))

  /** One step of one side.  A step that is not `ok` is a failed read or write; a read that has its bytes
      can fail only on an unreliable channel. */
  datatype Move = Move(client: bool, ok: bool)

  function Over(c: Client): bool {
    c.Connected? || c.Refused?
  }

  function Ended(v: Server): bool {
    v.Serving? || v.Closed?
  }

  function ClientMove(s: Setup, net: Net, ok: bool): Option<Net>
    requires ValidSetup(s)
  {
    if Over(net.client) then None
    else if !ok then Some(net.(client := Refused))
    else if ToSend(s, net.client).Some? then
      Some(net.(client := AfterSend(s, net.client), up := Write(net.up, ToSend(s, net.client).value)))
    else
      var n := ToRead(net.client).value;
      if Has(net.down, n) then Some(net.(client := AfterRead(s, net.client, Front(net.down, n)),
          down := Past(net.down, n)))
      else None
  }

  function ServerMove(s: Setup, net: Net, ok: bool): Option<Net>
    requires ValidSetup(s)
  {
    if Ended(net.server) then None
    else if net.server.Acting? then
      if ok then Some(net.(server := Act(s, net.server.cmd, net.server.addr))) else None
    else if Says(s, net.server).Some? then
      if ok then Some(net.(server := AfterSaying(net.server), down := Write(net.down, Says(s, net.server).value)))
      else Some(net.(server := Closed))
    else if Expects(net.server).None? then None
    else if !ok then Some(net.(server := Starve(s, net.server)))
    else
      var n := Expects(net.server).value;
      if Has(net.up, n) then Some(net.(server := Receive(s, net.server, Front(net.up, n)), up := Past(net.up, n)))
      else None
  }

  function Step(s: Setup, net: Net, m: Move): Option<Net>
    requires ValidSetup(s)
  {
    if m.client then ClientMove(s, net, m.ok) else ServerMove(s, net, m.ok)
  }

  /** On reliable channels writes succeed, and a read fails only when the other side has given up and the
      bytes are not there. */
  predicate Fair(s: Setup, net: Net, m: Move)
    requires ValidSetup(s)
  {
    !m.ok ==>
      if m.client then net.server.Closed? && ToRead(net.client).Some? && !Has(net.down, ToRead(net.client).value)
      else net.client.Refused? && Expects(net.server).Some? && !Has(net.up, Expects(net.server).value)
  }

  ghost function Run(s: Setup, moves: seq<Move>): Option<Net>
    requires ValidSetup(s)
  {
    if moves == [] then Some(START)
    else
      var r := Run(s, moves[..|moves| - 1]);
      if r.None? then None else Step(s, r.value, moves[|moves| - 1])
  }
}
