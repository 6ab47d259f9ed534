/** With users to check, the server connects or binds for nobody who has not sent a registered name with its
    password, whatever bytes arrive and however reads and writes fail. */
module Socks5Auth {
  import opened Options
  import opened Ordering
  import opened Socks5Messages
  import opened Socks5
  import A = Authenticator

  /** The server and the bytes that have come in. */
  datatype Lone = Lone(server: Server, up: Wire)

  /** Bytes come in from anyone, or the server takes a step. */
  datatype Event = Arrive(bytes: Key) | Go(ok: bool)

  function Happen(s: Setup, l: Lone, e: Event): Option<Lone>
    requires ValidSetup(s)
  {
    match e
    case Arrive(b) => Some(Lone(l.server, Write(l.up, b)))
    case Go(ok) =>
      var r := ServerMove(s, Net(Refused, l.server, l.up, Wire([], 0)), ok);
      if r.None? then None else Some(Lone(r.value.server, r.value.up))
  }

  ghost function Story(s: Setup, events: seq<Event>): Option<Lone>
    requires ValidSetup(s)
  {
    if events == [] then Some(Lone(Greeting, Wire([], 0)))
    else
      var r := Story(s, events[..|events| - 1]);
      if r.None? then None else Happen(s, r.value, events[|events| - 1])
  }

  /** `k` holds, at `at`, a registered name with its password. */
  predicate SentAt(users: map<Key, Key>, k: Key, at: nat, name: Key, pass: Key) {
    var b := CredsBytes(Some(Creds(name, pass)));
    && |name| < 256 && |pass| < 256 && name in users && users[name] == pass
    && at + |b| <= |k| && k[at..at + |b|] == b
  }

  /** The length of the greeting: two bytes and as many methods as the second of them says. */
  function Greeted(k: Key): nat
    requires |k| >= 2
  {
    2 + k[1] as int
  }

  predicate SentAfter(users: map<Key, Key>, k: Key, name: Key, pass: Key) {
    |k| >= 2 && SentAt(users, k, Greeted(k), name, pass)
  }

  /** Credentials of a registered user follow the greeting. */
  ghost predicate Sent(users: map<Key, Key>, k: Key) {
    exists name, pass :: SentAfter(users, k, name, pass)
  }

  lemma {:induction false} SentAtStays(users: map<Key, Key>, k: Key, at: nat, name: Key, pass: Key, more: Key)
    requires SentAt(users, k, at, name, pass)
    ensures SentAt(users, k + more, at, name, pass)
  {
    var n := |CredsBytes(Some(Creds(name, pass)))|;
    assert (k + more)[at..at + n] == k[at..at + n];
  }

  lemma {:induction false} SentStays(users: map<Key, Key>, k: Key, more: Key)
    requires Sent(users, k)
    ensures Sent(users, k + more)
  {
    var name, pass :| SentAfter(users, k, name, pass);
    SentAtStays(users, k, Greeted(k), name, pass, more);
    assert SentAfter(users, k + more, name, pass);
  }

  /** After the greeting the bytes `tail` have been read. */
  predicate Since(k: Key, tail: Key) {
    |k| >= 2 && |k| == Greeted(k) + |tail| && k[Greeted(k)..] == tail
  }

  predicate PastAuth(v: Server) {
    v.RequestHead? || v.RequestAddr? || v.Acting? || v.Respond? || v.Serving? || (v.UserReply? && v.ok)
  }

  /** What the server has read by the time it is where it is. */
  ghost predicate Proven(users: map<Key, Key>, v: Server, k: Key) {
    match v
    case Greeting => k == []
    case MethodList(n) => |k| == 2 && n == k[1]
    case Reply(m) => m != METHOD_NONE && (m == METHOD_USER ==> Since(k, []))
    case UserHead => Since(k, [])
    case UserName(n) => n < 256 && Since(k, [AUTH_VERSION, n])
    case UserPass(name, n) => |name| < 256 && n < 256 && Since(k, [AUTH_VERSION, |name|] + (name + [n]))
    case _ => PastAuth(v) ==> Sent(users, k)
  }

  lemma {:induction false} SinceLater(k: Key, tail: Key, b: Key)
    requires Since(k, tail)
    ensures Since(k + b, tail + b)
  {}

  lemma {:induction false} NameRead(k: Key, n: nat, b: Key)
    requires n < 256 && Since(k, [AUTH_VERSION, n]) && |b| == n + 1
    ensures Since(k + b, [AUTH_VERSION, |b[..n]|] + (b[..n] + [b[n]]))
  {
    SinceLater(k, [AUTH_VERSION, n], b);
    assert b == b[..n] + [b[n]];
  }

  lemma {:induction false} CredsPlain(name: Key, pass: Key)
    requires |name| < 256 && |pass| < 256
    ensures CredsBytes(Some(Creds(name, pass))) == [AUTH_VERSION, |name|] + (name + [|pass|]) + pass
  {
    assert Cut(name) == name && Cut(pass) == pass;
    assert name + ([|pass|] + pass) == name + [|pass|] + pass;
  }

  lemma {:induction false} SinceSent(users: map<Key, Key>, k: Key, name: Key, pass: Key)
    requires |name| < 256 && |pass| < 256 && name in users && users[name] == pass
    requires Since(k, CredsBytes(Some(Creds(name, pass))))
    ensures Sent(users, k)
  {
    var at := Greeted(k);
    assert k[at..|k|] == k[at..];
    assert SentAfter(users, k, name, pass);
  }

  lemma {:induction false} PassRead(users: map<Key, Key>, k: Key, name: Key, n: nat, pass: Key)
    requires |name| < 256 && n < 256 && Since(k, [AUTH_VERSION, |name|] + (name + [n])) && |pass| == n
    requires name in users && users[name] == pass
    ensures Sent(users, k + pass)
  {
    SinceLater(k, [AUTH_VERSION, |name|] + (name + [n]), pass);
    CredsPlain(name, pass);
    SinceSent(users, k + pass, name, pass);
  }

  lemma {:induction false} HeadRead(k: Key, b: Key)
    requires Since(k, []) && |b| == 2
    ensures Since(k + b, [b[0], b[1]])
  {
    SinceLater(k, [], b);
    assert [] + b == b == [b[0], b[1]];
  }

  lemma {:induction false} GreetingProven(s: Setup, v: Server, k: Key, b: Key)
    requires s.users.Some? && Proven(s.users.value, v, k) && Expects(v) == Some(|b|) && (v.Greeting? || v.MethodList?)
    ensures Proven(s.users.value, Receive(s, v, b), k + b)
  {
    if v.Greeting? {
      assert k + b == b;
    } else {
      assert (k + b)[1] == k[1];
      assert Since(k + b, []);
    }
  }

  lemma {:induction false} UserProven(s: Setup, v: Server, k: Key, b: Key)
    requires s.users.Some? && Proven(s.users.value, v, k) && Expects(v) == Some(|b|) &&
             (v.UserHead? || v.UserName? || v.UserPass?)
    ensures Proven(s.users.value, Receive(s, v, b), k + b)
  {
    var users := s.users.value;
    match v
    case UserHead => HeadRead(k, b);
    case UserName(n) => NameRead(k, n, b);
    case UserPass(name, n) =>
      if name in users && users[name] == b {
        PassRead(users, k, name, n, b);
      }
  }

  lemma {:induction false} ReceiveProven(s: Setup, v: Server, k: Key, b: Key)
    requires ValidSetup(s) && s.users.Some? && Proven(s.users.value, v, k) && Expects(v) == Some(|b|)
    ensures Proven(s.users.value, Receive(s, v, b), k + b)
  {
    if v.Greeting? || v.MethodList? {
      GreetingProven(s, v, k, b);
    } else if v.UserHead? || v.UserName? || v.UserPass? {
      UserProven(s, v, k, b);
    } else {
      SentStays(s.users.value, k, b);
    }
  }

  /** The steps of the server that read nothing. */
  lemma {:induction false} TurnProven(s: Setup, v: Server, k: Key)
    requires ValidSetup(s) && s.users.Some? && Proven(s.users.value, v, k)
    ensures v.Acting? ==> Proven(s.users.value, Act(s, v.cmd, v.addr), k)
    ensures Says(s, v).Some? ==> Proven(s.users.value, AfterSaying(v), k)
    ensures Expects(v).Some? ==> Proven(s.users.value, Starve(s, v), k)
    ensures Proven(s.users.value, Closed, k)
  {}

  lemma {:induction false} ReadOn(k: Key, i: nat, n: nat)
    requires i + n <= |k|
    ensures k[..i + n] == k[..i] + k[i..i + n]
  {}

  lemma {:induction false} ReadStays(k: Key, i: nat, more: Key)
    requires i <= |k|
    ensures (k + more)[..i] == k[..i]
  {}

  lemma {:induction false} Whole(k: Key, i: nat)
    requires i <= |k|
    ensures k[..i] + k[i..] == k
  {}

  ghost predicate LoneProven(users: map<Key, Key>, l: Lone) {
    l.up.read <= |l.up.log| && Proven(users, l.server, l.up.log[..l.up.read])
  }

  lemma {:induction false} ReadProven(s: Setup, l: Lone, n: nat)
    requires ValidSetup(s) && s.users.Some? && LoneProven(s.users.value, l) && Expects(l.server) == Some(n) &&
             Has(l.up, n)
    ensures LoneProven(s.users.value, Lone(Receive(s, l.server, Front(l.up, n)), Past(l.up, n)))
  {
    var k, b := l.up.log[..l.up.read], Front(l.up, n);
    ReadOn(l.up.log, l.up.read, n);
    ReceiveProven(s, l.server, k, b);
    ProvenAt(s.users.value, Receive(s, l.server, b), Past(l.up, n), k + b);
  }

  lemma {:induction false} ProvenAt(users: map<Key, Key>, v: Server, up: Wire, k: Key)
    requires up.read <= |up.log| && up.log[..up.read] == k && Proven(users, v, k)
    ensures LoneProven(users, Lone(v, up))
  {}

  lemma {:induction false} HappenProven(s: Setup, l: Lone, e: Event)
    requires ValidSetup(s) && s.users.Some? && Happen(s, l, e).Some? && LoneProven(s.users.value, l)
    ensures LoneProven(s.users.value, Happen(s, l, e).value)
  {
    match e
    case Arrive(b) => ReadStays(l.up.log, l.up.read, b);
    case Go(ok) =>
      if !l.server.Acting? && Says(s, l.server).None? && ok {
        ReadProven(s, l, Expects(l.server).value);
      } else {
        TurnProven(s, l.server, l.up.log[..l.up.read]);
      }
  }

  lemma {:induction false} StoryProven(s: Setup, events: seq<Event>)
    requires ValidSetup(s) && s.users.Some? && Story(s, events).Some?
    ensures LoneProven(s.users.value, Story(s, events).value)
    decreases |events|
  {
    if events != [] {
      var n := |events| - 1;
      StoryProven(s, events[..n]);
      HappenProven(s, Story(s, events[..n]).value, events[n]);
    }
  }

  /** No connect or bind, and no success, without a registered name and its password right after the greeting. */
  lemma {:induction false} ActsOnlyForUsers(s: Setup, events: seq<Event>)
    requires ValidSetup(s) && s.users.Some? && Story(s, events).Some?
    requires var v := Story(s, events).value.server; v.Acting? || v.Serving?
    ensures Sent(s.users.value, Story(s, events).value.up.log)
  {
    StoryProven(s, events);
    var up := Story(s, events).value.up;
    SentStays(s.users.value, up.log[..up.read], up.log[up.read..]);
    Whole(up.log, up.read);
  }

  /** The users of the model are those of the authenticator: its check makes the decision of the handshake. */
  method CheckUser(auth: A.Authenticator, s: Setup, name: Key, pass: Key) returns (v: Server)
    requires auth.Valid() && s.users == Some(auth.Passwords())
    ensures v == Receive(s, UserPass(name, |pass|), pass)
  {
    var ok := auth.Check(name, pass);
    v := UserReply(ok);
  }
}
