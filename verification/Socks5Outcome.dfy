/** On reliable channels every run of the handshake ends, both sides end alike, and the pipelined mode does
    what the standard one does. */
module Socks5Outcome {
  import opened Options
  import opened Ordering
  import opened Socks5Messages
  import opened Socks5
  import opened Socks5Safety

  ghost predicate FairRun(s: Setup, moves: seq<Move>)
    requires ValidSetup(s)
  {
    moves != [] ==>
      var n := |moves| - 1;
      && FairRun(s, moves[..n]) && Run(s, moves[..n]).Some?
      && Fair(s, Run(s, moves[..n]).value, moves[n]) && Step(s, Run(s, moves[..n]).value, moves[n]).Some?
  }

  /** The server is going to close, or has. */
  predicate Doomed(v: Server) {
    || v.Closed? || (v.Reply? && v.choice == METHOD_DENY) || (v.UserReply? && !v.ok) ||
        (v.Respond? && v.rep != REP_SUCC)
  }

  predicate Sour(x: Said) {
    x.Denied? || x.Rejected? || (x.Answered? && x.rep != REP_SUCC)
  }

  /** Besides the invariant: nobody gives up without a reason. */
  ghost predicate FairInv(s: Setup, net: Net, x: Said)
    requires ValidSetup(s)
  {
    && Inv(s, net, x) && (Good(s) ==> !Doomed(net.server) && !Sour(x))
    && (net.client.Refused? ==> !Good(s) || (x == Answered(REP_SUCC) && !s.upstream))
    && (net.client.Refused? && s.pipelined ==> net.up.log == Full(s))
  }

  lemma {:induction false} GoodHeard(s: Setup, v: Server, read: nat, x: Said, b: Key)
    requires ValidSetup(s) && ServerAt(s, v, read, x) && SaidFits(s, x) && Good(s) && !Doomed(v)
    requires Expects(v) == Some(|b|) && read + |b| <= |Full(s)| && b == Full(s)[read..read + |b|]
    ensures !Doomed(Receive(s, v, b))
  {
    if v.Greeting? || v.MethodList? {
      FullParts(s);
    } else if v.RequestHead? || v.RequestAddr? {
      ServerHearsRequest(s, v, read, x, b);
    } else {
      CredsParts(s);
    }
  }

  lemma {:induction false} ServerFair(s: Setup, net: Net, x: Said, ok: bool) returns (x': Said)
    requires ValidSetup(s) && FairInv(s, net, x) && Fair(s, net, Move(false, ok)) && ServerMove(s, net, ok).Some?
    ensures FairInv(s, ServerMove(s, net, ok).value, x')
  {
    x' := ServerKeeps(s, net, x, ok);
    ServerUndoomed(s, net, x, ok);
  }

  lemma {:induction false} ServerUndoomed(s: Setup, net: Net, x: Said, ok: bool)
    requires ValidSetup(s) && FairInv(s, net, x) && Fair(s, net, Move(false, ok)) && ServerMove(s, net, ok).Some?
    ensures Good(s) ==> !Doomed(ServerMove(s, net, ok).value.server)
    ensures Good(s) && Says(s, net.server).Some? ==> !Sour(NowSaid(net.server))
    ensures x != Answered(REP_SUCC)
  {
    var v := net.server;
    if !v.Acting? && Says(s, v).None? && ok && Good(s) {
      var n := Expects(v).value;
      FrontIs(s, net, x, n);
      GoodHeard(s, v, net.up.read, x, Front(net.up, n));
    }
  }

  lemma {:induction false} ClientHearsWhy(s: Setup, c: Client, read: nat, x: Said, n: nat)
    requires ValidSetup(s) && ClientAt(s, c, read, x) && SaidFits(s, x) && ToRead(c) == Some(n) && Good(s) && !Sour(x)
    requires read + n <= |SaidBytes(s, x)| && AfterRead(s, c, SaidBytes(s, x)[read..read + n]).Refused?
    ensures x == Answered(REP_SUCC) && !s.upstream
  {
    var b := SaidBytes(s, x)[read..read + n];
    match c
    case ReadMethod => HearsMethod(s, x, b);
    case ReadCreds => HearsCreds(s, x, b);
    case ReadHead => HearsHead(s, x, b);
    case ReadAddress(_) =>
  }

  lemma {:induction false} ClientFair(s: Setup, net: Net, x: Said, ok: bool)
    requires ValidSetup(s) && FairInv(s, net, x) && Fair(s, net, Move(true, ok)) && ClientMove(s, net, ok).Some?
    ensures FairInv(s, ClientMove(s, net, ok).value, x)
  {
    ClientKeeps(s, net, x, ok);
    if ok && ToSend(s, net.client).None? {
      var n := ToRead(net.client).value;
      if Good(s) && AfterRead(s, net.client, Front(net.down, n)).Refused? {
        ClientHearsWhy(s, net.client, net.down.read, x, n);
      }
    }
  }

  lemma {:induction false} FairKeeps(s: Setup, moves: seq<Move>) returns (x: Said)
    requires ValidSetup(s) && FairRun(s, moves)
    ensures Run(s, moves).Some? && FairInv(s, Run(s, moves).value, x)
    decreases |moves|
  {
    if moves == [] {
      x := Silent;
    } else {
      var n := |moves| - 1;
      x := FairKeeps(s, moves[..n]);
      var net, m := Run(s, moves[..n]).value, moves[n];
      if m.client {
        ClientFair(s, net, x, m.ok);
      } else {
        x := ServerFair(s, net, x, m.ok);
      }
    }
  }

  lemma {:induction false} OutcomeOf(s: Setup, c: Client, v: Server, read: nat, up: nat, x: Said)
    requires ValidSetup(s) && ClientAt(s, c, read, x) && ServerAt(s, v, up, x) && SaidFits(s, x)
    requires (Good(s) ==> !Doomed(v)) && (c.Refused? ==> !Good(s) || (x == Answered(REP_SUCC) && !s.upstream))
    requires c.Connected? ==> s.upstream
    requires Over(c) && Ended(v)
    ensures (v.Serving? <==> Good(s)) && (c.Connected? <==> Good(s) && s.upstream)
  {}

  /** When both sides are through, the server serves exactly if the two agree on the method, the user is
      known and the environment lets it act, and the client is connected exactly if, besides, it accepts
      the address. */
  lemma {:induction false} FairOutcome(s: Setup, moves: seq<Move>)
    requires ValidSetup(s) && FairRun(s, moves)
    ensures Run(s, moves).Some? && var net := Run(s, moves).value;
      Over(net.client) && Ended(net.server) ==>
        (net.server.Serving? <==> Good(s)) && (net.client.Connected? <==> Good(s) && s.upstream)
  {
    var x := FairKeeps(s, moves);
    var net := Run(s, moves).value;
    if Over(net.client) && Ended(net.server) {
      OutcomeOf(s, net.client, net.server, net.down.read, net.up.read, x);
    }
  }

  // ---- Every run goes on until both sides are through ----

  function ClientRank(s: Setup, c: Client): nat {
    match c
    case SendMethods => 7
    case SendCreds => if s.pipelined then 6 else 5
    case SendRequest => if s.pipelined then 5 else 3
    case ReadMethod => if s.pipelined then 4 else 6
    case ReadCreds => if s.pipelined then 3 else 4
    case ReadHead => 2
    case ReadAddress(_) => 1
    case _ => 0
  }

  function ServerRank(v: Server): nat {
    match v
    case Greeting => 11
    case MethodList(_) => 10
    case Reply(_) => 9
    case UserHead => 8
    case UserName(_) => 7
    case UserPass(_, _) => 6
    case UserReply(_) => 5
    case RequestHead => 4
    case RequestAddr(_) => 3
    case Acting(_, _) => 2
    case Respond(_, _, _) => 1
    case _ => 0
  }

  function Rank(s: Setup, net: Net): nat {
    ClientRank(s, net.client) + ServerRank(net.server)
  }

  lemma {:induction false} StepEnds(s: Setup, net: Net, m: Move)
    requires ValidSetup(s) && Step(s, net, m).Some?
    ensures Rank(s, Step(s, net, m).value) < Rank(s, net)
  {}

  /** No run, on any channels, has more than 18 steps. */
  lemma {:induction false} RunsEnd(s: Setup, moves: seq<Move>)
    requires ValidSetup(s) && Run(s, moves).Some?
    ensures |moves| + Rank(s, Run(s, moves).value) <= 18
    decreases |moves|
  {
    if moves != [] {
      var n := |moves| - 1;
      RunsEnd(s, moves[..n]);
      StepEnds(s, Run(s, moves[..n]).value, moves[n]);
    }
  }

  /** What the server waits for is part of what the client has to say. */
  lemma {:induction false} WithinFull(s: Setup, v: Server, read: nat, x: Said, k: nat)
    requires ValidSetup(s) && ServerAt(s, v, read, x) && Expects(v) == Some(k)
    ensures v.Greeting? || v.MethodList? ==> read + k <= 3
    ensures v.UserHead? || v.UserName? || v.UserPass? ==> x == Asked && (s.creds.Some? ==> read + k <= Early(s))
    ensures v.RequestHead? || v.RequestAddr? ==> x == Ready && read + k <= |Full(s)|
  {
    FullParts(s);
    RequestParts(s);
    if s.creds.Some? {
      CredsParts(s);
    }
  }

  /** The server does not wait for more than the client has sent when the client waits as well. */
  lemma {:induction false} ServerSupplied(s: Setup, net: Net, x: Said, k: nat)
    requires ValidSetup(s) && Inv(s, net, x) && Expects(net.server) == Some(k) && net.up.log == Full(s)
    ensures Has(net.up, k)
  {
    FullParts(s);
    WithinFull(s, net.server, net.up.read, x, k);
  }

  /** The two sides never wait for each other. */
  lemma {:induction false} NotBoth(s: Setup, net: Net, x: Said, n: nat, k: nat)
    requires ValidSetup(s) && Inv(s, net, x) && ToRead(net.client) == Some(n) && Expects(net.server) == Some(k)
    ensures Has(net.down, n) || Has(net.up, k)
  {
    FullParts(s);
    WithinFull(s, net.server, net.up.read, x, k);
    if |net.up.log| == |Full(s)| {
      assert net.up.log == Full(s);
      ServerSupplied(s, net, x, k);
    }
  }

  /** Whoever has been granted the request finds the whole response. */
  lemma {:induction false} AnswerThere(s: Setup, c: Client, read: nat, n: nat)
    requires ValidSetup(s) && ClientAt(s, c, read, Answered(REP_SUCC)) && ToRead(c) == Some(n)
    ensures read + n <= |SaidBytes(s, Answered(REP_SUCC))|
  {
    AddrRoundTrip(s.bound);
  }

  lemma {:induction false} ClientCan(s: Setup, net: Net, x: Said)
    requires ValidSetup(s) && FairInv(s, net, x) && !Over(net.client) && Ended(net.server)
    ensures exists ok :: Fair(s, net, Move(true, ok)) && Step(s, net, Move(true, ok)).Some?
  {
    var ok := ToSend(s, net.client).Some? || Has(net.down, ToRead(net.client).value);
    if net.server.Serving? && ToRead(net.client).Some? {
      AnswerThere(s, net.client, net.down.read, ToRead(net.client).value);
    }
    assert Fair(s, net, Move(true, ok)) && Step(s, net, Move(true, ok)).Some?;
  }

  lemma {:induction false} ServerCan(s: Setup, net: Net, x: Said)
    requires ValidSetup(s) && FairInv(s, net, x) && !Ended(net.server)
    requires Expects(net.server).Some? ==> Has(net.up, Expects(net.server).value) || net.client.Refused?
    ensures exists ok :: Fair(s, net, Move(false, ok)) && Step(s, net, Move(false, ok)).Some?
  {
    RequestParts(s);
    var ok := Expects(net.server).Some? ==> Has(net.up, Expects(net.server).value);
    assert Fair(s, net, Move(false, ok)) && Step(s, net, Move(false, ok)).Some?;
  }

  /** As long as a side is not through, some step is possible. */
  lemma {:induction false} Progress(s: Setup, moves: seq<Move>)
    requires ValidSetup(s) && FairRun(s, moves)
    ensures Run(s, moves).Some? && var net := Run(s, moves).value;
      (Over(net.client) && Ended(net.server)) || exists m :: Fair(s, net, m) && Step(s, net, m).Some?
  {
    var x := FairKeeps(s, moves);
    var net := Run(s, moves).value;
    if !Ended(net.server) {
      if Expects(net.server).Some? && !Over(net.client) && ToSend(s, net.client).Some? {
        assert Fair(s, net, Move(true, true)) && Step(s, net, Move(true, true)).Some?;
      } else if Expects(net.server).Some? && !Over(net.client) {
        NotBoth(s, net, x, ToRead(net.client).value, Expects(net.server).value);
        if Has(net.down, ToRead(net.client).value) {
          assert Fair(s, net, Move(true, true)) && Step(s, net, Move(true, true)).Some?;
        } else {
          ServerCan(s, net, x);
        }
      } else {
        ServerCan(s, net, x);
      }
    } else if !Over(net.client) {
      ClientCan(s, net, x);
    }
  }

  // ---- Pipelined and standard ----

  /** For the same setup, two complete runs, one in each mode, end alike; what the standard client has sent
      is a prefix of what the pipelined one has sent, and the same bytes if they succeed. */
  lemma {:induction false} PipelinedRefinesStandard(s: Setup, standard: seq<Move>, pipelined: seq<Move>)
    requires ValidSetup(s) && !s.pipelined && ValidSetup(s.(pipelined := true))
    requires FairRun(s, standard) && FairRun(s.(pipelined := true), pipelined)
    ensures Run(s, standard).Some? && Run(s.(pipelined := true), pipelined).Some?
    ensures var a, b := Run(s, standard).value, Run(s.(pipelined := true), pipelined).value;
      Over(a.client) && Ended(a.server) && Over(b.client) && Ended(b.server) ==>
        && (a.client.Connected? <==> b.client.Connected?) && (a.server.Serving? <==> b.server.Serving?)
        && a.up.log <= b.up.log && (a.client.Connected? ==> a.up.log == b.up.log)
  {
    var t := s.(pipelined := true);
    var x := FairKeeps(s, standard);
    var y := FairKeeps(t, pipelined);
    FairOutcome(s, standard);
    FairOutcome(t, pipelined);
    assert Full(s) == Full(t) && (Good(s) <==> Good(t));
  }
}
