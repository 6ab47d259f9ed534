/** VLESS links: the printer, the parser, and for which configurations the parser undoes the printer. */
module VlessUri {
  import opened Options
  import opened Numerals
  import opened Text

  datatype Config =
    | VlessTls(connectHost: string, port: int, sni: string, host: string, path: string, uuid: string,
               network: string, fingerprint: string, alpn: string, mode: string, name: string)
    | Reality(connectHost: string, port: int, sni: string, publicKey: string, shortId: string,
              fingerprint: string, flow: string, uuid: string, name: string)
    | Foreign(link: string)          // a configuration of another protocol

  type Params = map<string, string>

  const SCHEME := "vless://"

  // ---- Query parameters ----

  /** One `key=value`; pieces without a key are passed over. */
  function AddParam(m: Params, piece: string): Params {
    var i := Find(piece, '=');
    if i > 0 then m[piece[..i] := piece[i + 1..]] else m
  }

  function Query(pieces: seq<string>): Params {
    if pieces == [] then map[] else AddParam(Query(pieces[..|pieces| - 1]), pieces[|pieces| - 1])
  }

  /** parseQueryParams */
  method ParseQueryParams(query: string) returns (params: Params)
    ensures params == Query(Split(query, '&'))
  {
    params := map[];
    var pieces := Split(query, '&');
    for k := 0 to |pieces|
      invariant params == Query(pieces[..k])
    {
      var eqIndex := Find(pieces[k], '=');
      if eqIndex > 0 {
        params := params[pieces[k][..eqIndex] := pieces[k][eqIndex + 1..]];
      }
      assert pieces[..k + 1][..k] == pieces[..k];
    }
    assert pieces[..|pieces|] == pieces;
  }

  function Get(m: Params, key: string, default: string): string {
    if key in m then m[key] else default
  }

  // ---- The parser ----

  /** A link taken apart. */
  datatype Pieces = Pieces(uuid: string, host: string, port: int, params: Params, name: string)

  datatype Authority = Authority(uuid: string, host: string, port: int)

  /** uuid@host:port */
  function ReadAuthority(s: string): Option<Authority> {
    var at := CutFirst(s, '@');
    var colon := CutLast(at.back, ':');
    var port := ParseInt(colon.back);
    if at.found && colon.found && port.Some? then Some(Authority(at.front, colon.front, port.value)) else None
  }

  function ReadQuery(q: Cut): Params {
    if q.found then Query(Split(q.back, '&')) else map[]
  }

  /** authority?params#name */
  function Dissect(s: string): Option<Pieces> {
    var hash := CutLast(s, '#');
    var q := CutFirst(hash.front, '?');
    var a := ReadAuthority(q.front);
    if a.None? then None else Some(Pieces(a.value.uuid, a.value.host, a.value.port, ReadQuery(q), hash.back))
  }

  function Build(p: Pieces): Option<Config> {
    var security := Get(p.params, "security", "");
    if security == "reality" then
      Some(Reality(p.host, p.port, Get(p.params, "sni", ""), Get(p.params, "pbk", ""), Get(p.params, "sid", ""),
                   Get(p.params, "fp", "chrome"), Get(p.params, "flow", "xtls-rprx-vision"), p.uuid, p.name))
    else if security == "tls" || security == "" || security == "none" then
      Some(VlessTls(p.host, p.port, Get(p.params, "sni", p.host), Get(p.params, "host", p.host),
                    Unescape(Get(p.params, "path", "/")), p.uuid, Get(p.params, "type", "tcp"),
                    Get(p.params, "fp", ""), Get(p.params, "alpn", ""), Get(p.params, "mode", ""), p.name))
    else None
  }

  function Parse(uri: string): Option<Config> {
    if SCHEME <= uri then
      var p := Dissect(uri[|SCHEME|..]);
      if p.None? then None else Build(p.value)
    else None
  }

  // ---- The printer ----

  datatype Param = Param(key: string, value: string)

  function Piece(p: Param): string {
    p.key + "=" + p.value
  }

  function PiecesOf(ps: seq<Param>): (r: seq<string>)
    ensures |r| == |ps| && forall k | 0 <= k < |ps| :: r[k] == Piece(ps[k])
  {
    seq(|ps|, k requires 0 <= k < |ps| => Piece(ps[k]))
  }

  function Optional(key: string, value: string): seq<Param> {
    if value == "" then [] else [Param(key, value)]
  }

  function Three(p: Param, q: Param, r: Param): seq<Param> {
    [p, q, r]
  }

  function TlsParams(c: Config): seq<Param>
    requires c.VlessTls?
  {
    Three(Param("encryption", "none"), Param("security", "tls"), Param("type", c.network))
    + (Optional("host", c.host) + (Optional("sni", c.sni) + (Optional("path", Escape(c.path))
    + (Optional("fp", c.fingerprint) + (Optional("alpn", c.alpn) + Optional("mode", c.mode))))))
  }

  function RealityParams(c: Config): seq<Param>
    requires c.Reality?
  {
    Three(Param("security", "reality"), Param("encryption", "none"), Param("pbk", c.publicKey))
    + (Three(Param("headerType", "none"), Param("fp", c.fingerprint), Param("type", "tcp"))
    + Three(Param("flow", c.flow), Param("sni", c.sni), Param("sid", c.shortId)))
  }

  function Link(uuid: string, host: string, port: int, ps: seq<Param>, name: string): string {
    (uuid + "@" + (host + ":" + PrintInt(port))) + "?" + Join(PiecesOf(ps), '&') + "#" + name
  }

  function ToUri(c: Config): string {
    match c
    case VlessTls(_, _, _, _, _, _, _, _, _, _, _) => SCHEME + Link(c.uuid, c.connectHost, c.port, TlsParams(c), c.name)
    case Reality(_, _, _, _, _, _, _, _, _) => SCHEME + Link(c.uuid, c.connectHost, c.port, RealityParams(c), c.name)
    case Foreign(link) => link
  }

  // ---- Taking a printed link apart ----

  /** The characters that end a part of a link do not occur in it. */
  predicate CleanFrame(uuid: string, host: string, name: string) {
    '#' !in name && '?' !in uuid && '?' !in host && '@' !in uuid
  }

  predicate CleanParams(ps: seq<Param>) {
    forall k | 0 <= k < |ps| :: '&' !in Piece(ps[k])
  }

  lemma {:induction false} AuthorityRead(uuid: string, host: string, port: int)
    requires '@' !in uuid && INT_MIN <= port <= INT_MAX
    ensures ReadAuthority(uuid + "@" + (host + ":" + PrintInt(port))) == Some(Authority(uuid, host, port))
  {
    ParsePrint(port);
    CutFirstIn(uuid, '@', host + ":" + PrintInt(port));
    CutLastIn(host, ':', PrintInt(port));
  }

  lemma {:induction false} NoMark(uuid: string, host: string, port: int)
    requires '?' !in uuid && '?' !in host && INT_MIN <= port <= INT_MAX
    ensures '?' !in uuid + "@" + (host + ":" + PrintInt(port))
  {
    ParsePrint(port);
    assert '?' !in PrintInt(port);
    assert '?' !in host + ":" && '?' !in uuid + "@";
  }

  lemma {:induction false} DissectLink(uuid: string, host: string, port: int, ps: seq<Param>, name: string)
    requires CleanFrame(uuid, host, name) && CleanParams(ps) && ps != [] && INT_MIN <= port <= INT_MAX
    ensures Dissect(Link(uuid, host, port, ps, name)) == Some(Pieces(uuid, host, port, Query(PiecesOf(ps)), name))
  {
    var authority, query := uuid + "@" + (host + ":" + PrintInt(port)), Join(PiecesOf(ps), '&');
    CutLastIn(authority + "?" + query, '#', name);
    NoMark(uuid, host, port);
    CutFirstIn(authority, '?', query);
    SplitJoin(PiecesOf(ps), '&');
    AuthorityRead(uuid, host, port);
  }

  /** What a link is taken apart into never holds the characters that end the parts. */
  lemma {:induction false} DissectClean(s: string)
    requires Dissect(s).Some?
    ensures var p := Dissect(s).value;
      CleanFrame(p.uuid, p.host, p.name) && forall k | k in p.params :: '&' !in p.params[k]
  {
    var q := CutFirst(CutLast(s, '#').front, '?');
    var at := CutFirst(q.front, '@');
    assert '?' !in at.front && '?' !in at.back;
    if q.found {
      SplitFree(q.back, '&');
      QueryClean(Split(q.back, '&'));
    }
  }

  lemma {:induction false} QueryClean(pieces: seq<string>)
    requires Free(pieces, '&')
    ensures forall k | k in Query(pieces) :: '&' !in Query(pieces)[k]
    decreases |pieces|
  {
    if pieces != [] {
      QueryClean(pieces[..|pieces| - 1]);
    }
  }

  // ---- What the parameters say ----

  predicate ProperKey(key: string) {
    key != "" && '=' !in key && '&' !in key
  }

  predicate ProperKeys(ps: seq<Param>) {
    forall k | 0 <= k < |ps| :: ProperKey(ps[k].key)
  }

  /** The value that the last parameter of that key has. */
  function Lookup(ps: seq<Param>, key: string): Option<string> {
    if ps == [] then None
    else
      var n := |ps| - 1;
      if ps[n].key == key then Some(ps[n].value) else Lookup(ps[..n], key)
  }

  lemma {:induction false} PieceRead(m: Params, p: Param)
    requires ProperKey(p.key)
    ensures AddParam(m, Piece(p)) == m[p.key := p.value]
  {
    FindIn(p.key, '=', p.value);
    assert Piece(p)[..|p.key|] == p.key && Piece(p)[|p.key| + 1..] == p.value;
  }

  lemma {:induction false} QueryLookup(ps: seq<Param>, key: string)
    requires ProperKeys(ps)
    ensures var m := Query(PiecesOf(ps)); var v := Lookup(ps, key);
      (key in m <==> v.Some?) && (v.Some? ==> m[key] == v.value)
    decreases |ps|
  {
    if ps != [] {
      var n := |ps| - 1;
      QueryLookup(ps[..n], key);
      assert PiecesOf(ps)[..n] == PiecesOf(ps[..n]);
      PieceRead(Query(PiecesOf(ps[..n])), ps[n]);
    }
  }

  lemma {:induction false} LookupAppend(a: seq<Param>, b: seq<Param>, key: string)
    ensures Lookup(a + b, key) == if Lookup(b, key).Some? then Lookup(b, key) else Lookup(a, key)
    decreases |b|
  {
    if b == [] {
      assert a + b == a;
    } else {
      var n := |b| - 1;
      assert (a + b)[..|a| + n] == a + b[..n];
      LookupAppend(a, b[..n], key);
    }
  }

  lemma {:induction false} LookupOne(key': string, value: string, key: string)
    ensures Lookup([Param(key', value)], key) == if key == key' then Some(value) else None
  {
    assert [Param(key', value)][..0] == [];
  }

  /** The pieces that the parser finds in printed parameters. */
  function Pieced(ps: seq<Param>): seq<string> {
    Split(Join(PiecesOf(ps), '&'), '&')
  }

  lemma {:induction false} PiecedCons(ps: seq<Param>)
    requires |ps| > 1
    ensures Pieced(ps) == Split(Piece(ps[0]), '&') + Pieced(ps[1..])
  {
    assert PiecesOf(ps)[1..] == PiecesOf(ps[1..]);
    SplitAppend(Piece(ps[0]), '&', Join(PiecesOf(ps[1..]), '&'));
  }

  lemma {:induction false} PiecedOne(ps: seq<Param>)
    requires |ps| == 1
    ensures Pieced(ps) == Split(Piece(ps[0]), '&') + []
  {}

  lemma {:induction false} FirstStays(ps: seq<Param>)
    requires ps != [] && ProperKey(ps[0].key)
    ensures ps[0].key in Query(Pieced(ps))
  {
    if |ps| == 1 {
      PiecedOne(ps);
      FirstPiece(ps[0], []);
    } else {
      PiecedCons(ps);
      FirstPiece(ps[0], Pieced(ps[1..]));
    }
  }

  lemma {:induction false} LaterStays(ps: seq<Param>, key: string)
    requires |ps| > 1 && key in Query(Pieced(ps[1..]))
    ensures key in Query(Pieced(ps))
  {
    PiecedCons(ps);
    QueryMore(Split(Piece(ps[0]), '&'), Pieced(ps[1..]), key);
  }

  /** Every key that was printed is found again, whatever the values are. */
  lemma {:induction false} KeysStay(ps: seq<Param>, i: nat)
    requires ProperKeys(ps) && i < |ps|
    ensures ps[i].key in Query(Pieced(ps))
    decreases |ps|
  {
    if i == 0 {
      FirstStays(ps);
    } else {
      KeysStay(ps[1..], i - 1);
      LaterStays(ps, ps[i].key);
    }
  }

  lemma {:induction false} QueryMore(a: seq<string>, b: seq<string>, key: string)
    ensures key in Query(b) ==> key in Query(a + b)
    ensures key in Query(a) ==> key in Query(a + b)
    decreases |b|
  {
    if b == [] {
      assert a + b == a;
    } else {
      assert (a + b)[..|a + b| - 1] == a + b[..|b| - 1];
      QueryMore(a, b[..|b| - 1], key);
    }
  }

  lemma {:induction false} FirstSplit(p: Param)
    requires ProperKey(p.key)
    ensures Split(Piece(p), '&')[0] == Piece(Param(p.key, CutFirst(p.value, '&').front))
  {
    SplitFront(Piece(p), '&');
    CutLater(p.key + "=", p.value, '&');
  }

  lemma {:induction false} QueryOne(piece: string)
    ensures Query([piece]) == AddParam(map[], piece)
  {
    assert [piece][..0] == [];
  }

  lemma {:induction false} FirstPiece(p: Param, more: seq<string>)
    requires ProperKey(p.key)
    ensures p.key in Query(Split(Piece(p), '&') + more)
  {
    var s := Split(Piece(p), '&');
    FirstSplit(p);
    FirstKept(s[0], s[1..] + more, Param(p.key, CutFirst(p.value, '&').front));
    assert s + more == [s[0]] + (s[1..] + more);
  }

  lemma {:induction false} FirstKept(piece: string, more: seq<string>, p: Param)
    requires ProperKey(p.key) && piece == Piece(p)
    ensures p.key in Query([piece] + more)
  {
    PieceRead(map[], p);
    QueryOne(piece);
    QueryMore([piece], more, p.key);
  }

  // ---- TLS links ----

  /** No value holds the character that separates parameters. */
  predicate TlsClean(c: Config)
    requires c.VlessTls?
  {
    && '&' !in c.network && '&' !in c.host && '&' !in c.sni && '&' !in c.path
    && '&' !in c.fingerprint && '&' !in c.alpn && '&' !in c.mode
  }

  /** What the parser needs of a TLS configuration to give it back. */
  predicate TlsExact(c: Config)
    requires c.VlessTls?
  {
    && CleanFrame(c.uuid, c.connectHost, c.name) && TlsClean(c)
    && c.path != "" && !HasCode(c.path)
    && (c.host != "" || c.connectHost == "") && (c.sni != "" || c.connectHost == "")
  }

  function Given(v: string): Option<string> {
    if v == "" then None else Some(v)
  }

  lemma {:induction false} KeysAppend(a: seq<Param>, b: seq<Param>)
    requires ProperKeys(a) && ProperKeys(b)
    ensures ProperKeys(a + b)
  {}

  lemma {:induction false} KeysOptional(key: string, value: string, rest: seq<Param>)
    requires ProperKey(key) && ProperKeys(rest)
    ensures ProperKeys(Optional(key, value) + rest)
  {}

  lemma {:induction false} TlsKeys(c: Config)
    requires c.VlessTls?
    ensures ProperKeys(TlsParams(c)) && TlsParams(c) != []
  {
    var p5 := Optional("mode", c.mode);
    var p4 := Optional("alpn", c.alpn) + p5;
    var p3 := Optional("fp", c.fingerprint) + p4;
    var p2 := Optional("path", Escape(c.path)) + p3;
    var p1 := Optional("sni", c.sni) + p2;
    KeysOptional("alpn", c.alpn, p5);
    KeysOptional("fp", c.fingerprint, p4);
    KeysOptional("path", Escape(c.path), p3);
    KeysOptional("sni", c.sni, p2);
    KeysOptional("host", c.host, p1);
    var base := KeysThree(Param("encryption", "none"), Param("security", "tls"), Param("type", c.network));
    KeysAppend(base, Optional("host", c.host) + p1);
  }

  lemma {:induction false} LookupOptional(key': string, value: string, rest: seq<Param>, key: string)
    ensures Lookup(Optional(key', value) + rest, key) ==
            if Lookup(rest, key).Some? then Lookup(rest, key) else if key == key' then Given(value) else None
  {
    LookupAppend(Optional(key', value), rest, key);
    LookupOne(key', value, key);
  }

  lemma {:induction false} LookupTls(c: Config, key: string)
    requires c.VlessTls?
    ensures Lookup(TlsParams(c), key) ==
      if key == "mode" then Given(c.mode)
      else if key == "alpn" then Given(c.alpn)
      else if key == "fp" then Given(c.fingerprint)
      else if key == "path" then Given(Escape(c.path))
      else if key == "sni" then Given(c.sni)
      else if key == "host" then Given(c.host)
      else if key == "type" then Some(c.network)
      else if key == "security" then Some("tls")
      else if key == "encryption" then Some("none")
      else None
  {
    var base := Three(Param("encryption", "none"), Param("security", "tls"), Param("type", c.network));
    var p5 := Optional("mode", c.mode);
    var p4 := Optional("alpn", c.alpn) + p5;
    var p3 := Optional("fp", c.fingerprint) + p4;
    var p2 := Optional("path", Escape(c.path)) + p3;
    var p1 := Optional("sni", c.sni) + p2;
    assert p5 + [] == p5;
    LookupOptional("mode", c.mode, [], key);
    LookupOptional("alpn", c.alpn, p5, key);
    LookupOptional("fp", c.fingerprint, p4, key);
    LookupOptional("path", Escape(c.path), p3, key);
    LookupOptional("sni", c.sni, p2, key);
    LookupOptional("host", c.host, p1, key);
    LookupAppend(base, Optional("host", c.host) + p1, key);
    LookupThree(Param("encryption", "none"), Param("security", "tls"), Param("type", c.network), key);
  }

  lemma {:induction false} LookupThree(p: Param, q: Param, r: Param, key: string)
    ensures Lookup(Three(p, q, r), key) ==
            if key == r.key then Some(r.value) else if key == q.key then Some(q.value)
            else if key == p.key then Some(p.value) else None
  {
    assert Three(p, q, r) == [p] + ([q] + [r]);
    LookupAppend([p], [q] + [r], key);
    LookupAppend([q], [r], key);
    LookupOne(p.key, p.value, key);
    LookupOne(q.key, q.value, key);
    LookupOne(r.key, r.value, key);
  }

  lemma {:induction false} KeysThree(p: Param, q: Param, r: Param) returns (ps: seq<Param>)
    requires ProperKey(p.key) && ProperKey(q.key) && ProperKey(r.key)
    ensures ps == Three(p, q, r) && ProperKeys(ps)
  {
    ps := Three(p, q, r);
  }

  lemma {:induction false} CleanThree(p: Param, q: Param, r: Param) returns (ps: seq<Param>)
    requires '&' !in Piece(p) && '&' !in Piece(q) && '&' !in Piece(r)
    ensures ps == Three(p, q, r) && CleanParams(ps)
  {
    ps := Three(p, q, r);
  }

  /** Reading a value back from clean parameters. */
  lemma {:induction false} GetParam(ps: seq<Param>, key: string, default: string)
    requires ProperKeys(ps)
    ensures var v := Lookup(ps, key); Get(Query(PiecesOf(ps)), key, default) == if v.Some? then v.value else default
  {
    QueryLookup(ps, key);
  }

  lemma {:induction false} CleanAppend(a: seq<Param>, b: seq<Param>)
    requires CleanParams(a) && CleanParams(b)
    ensures CleanParams(a + b)
  {}

  lemma {:induction false} CleanOptional(key: string, value: string, rest: seq<Param>)
    requires '&' !in key && '&' !in value && CleanParams(rest)
    ensures CleanParams(Optional(key, value) + rest)
  {}

  lemma {:induction false} TlsCleanParams(c: Config)
    requires c.VlessTls? && TlsClean(c)
    ensures CleanParams(TlsParams(c))
  {
    EscapeChars(c.path, '&');
    var p5 := Optional("mode", c.mode);
    var p4 := Optional("alpn", c.alpn) + p5;
    var p3 := Optional("fp", c.fingerprint) + p4;
    var p2 := Optional("path", Escape(c.path)) + p3;
    var p1 := Optional("sni", c.sni) + p2;
    assert p5 + [] == p5;
    CleanOptional("mode", c.mode, []);
    CleanOptional("alpn", c.alpn, p5);
    CleanOptional("fp", c.fingerprint, p4);
    CleanOptional("path", Escape(c.path), p3);
    CleanOptional("sni", c.sni, p2);
    CleanOptional("host", c.host, p1);
    var base := CleanThree(Param("encryption", "none"), Param("security", "tls"), Param("type", c.network));
    CleanAppend(base, Optional("host", c.host) + p1);
  }

  function Or(v: string, default: string): string {
    if v == "" then default else v
  }

  /** What a TLS configuration with clean parts is parsed to. */
  function Reread(c: Config): Config
    requires c.VlessTls?
  {
    c.(sni := Or(c.sni, c.connectHost), host := Or(c.host, c.connectHost), path := Unescape(Or(Escape(c.path), "/")))
  }

  lemma {:induction false} TlsParses(c: Config)
    requires c.VlessTls? && TlsClean(c) && CleanFrame(c.uuid, c.connectHost, c.name) && INT_MIN <= c.port <= INT_MAX
    ensures Parse(ToUri(c)) == Some(Reread(c))
  {
    var ps := TlsParams(c);
    TlsKeys(c);
    TlsCleanParams(c);
    DissectLink(c.uuid, c.connectHost, c.port, ps, c.name);
    var link := Link(c.uuid, c.connectHost, c.port, ps, c.name);
    assert (SCHEME + link)[|SCHEME|..] == link;
    TlsBuilds(c);
  }

  lemma {:induction false} GetBase(c: Config)
    requires c.VlessTls? && ProperKeys(TlsParams(c))
    ensures var m := Query(PiecesOf(TlsParams(c)));
            Get(m, "security", "") == "tls" && Get(m, "type", "tcp") == c.network
  {
    LookupTls(c, "security");
    LookupTls(c, "type");
    GetParam(TlsParams(c), "security", "");
    GetParam(TlsParams(c), "type", "tcp");
  }

  lemma {:induction false} GetPlace(c: Config)
    requires c.VlessTls? && ProperKeys(TlsParams(c))
    ensures var m := Query(PiecesOf(TlsParams(c)));
      && Get(m, "host", c.connectHost) == Or(c.host, c.connectHost)
      && Get(m, "sni", c.connectHost) == Or(c.sni, c.connectHost)
      && Get(m, "path", "/") == Or(Escape(c.path), "/")
  {
    LookupTls(c, "host");
    LookupTls(c, "sni");
    LookupTls(c, "path");
    GetParam(TlsParams(c), "host", c.connectHost);
    GetParam(TlsParams(c), "sni", c.connectHost);
    GetParam(TlsParams(c), "path", "/");
  }

  lemma {:induction false} GetStyle(c: Config)
    requires c.VlessTls? && ProperKeys(TlsParams(c))
    ensures var m := Query(PiecesOf(TlsParams(c)));
      Get(m, "fp", "") == c.fingerprint && Get(m, "alpn", "") == c.alpn && Get(m, "mode", "") == c.mode
  {
    LookupTls(c, "fp");
    LookupTls(c, "alpn");
    LookupTls(c, "mode");
    GetParam(TlsParams(c), "fp", "");
    GetParam(TlsParams(c), "alpn", "");
    GetParam(TlsParams(c), "mode", "");
  }

  lemma {:induction false} TlsBuilds(c: Config)
    requires c.VlessTls? && ProperKeys(TlsParams(c))
    ensures Build(Pieces(c.uuid, c.connectHost, c.port, Query(PiecesOf(TlsParams(c))), c.name)) == Some(Reread(c))
  {
    GetBase(c);
    GetPlace(c);
    GetStyle(c);
  }

  lemma {:induction false} EscapeEmpty(s: string)
    ensures Escape(s) == "" <==> s == ""
  {}

  lemma {:induction false} RereadSame(c: Config)
    requires c.VlessTls?
    ensures Reread(c) == c <==>
      c.path != "" && !HasCode(c.path) && (c.host != "" || c.connectHost == "") && (c.sni != "" || c.connectHost == "")
  {
    EscapeEmpty(c.path);
    EscapeRoundTrip(c.path);
    assert |Unescape("/")| == 1;
  }

  /** A link with a clean frame is cut in the right places, whatever its parameters hold. */
  lemma {:induction false} FrameCut(uuid: string, host: string, port: int, ps: seq<Param>, name: string)
    requires CleanFrame(uuid, host, name) && INT_MIN <= port <= INT_MAX
    ensures Dissect(Link(uuid, host, port, ps, name)) ==
            Some(Pieces(uuid, host, port, Query(Pieced(ps)), name))
  {
    var authority, query := uuid + "@" + (host + ":" + PrintInt(port)), Join(PiecesOf(ps), '&');
    CutLastIn(authority + "?" + query, '#', name);
    NoMark(uuid, host, port);
    CutFirstIn(authority, '?', query);
    AuthorityRead(uuid, host, port);
  }

  lemma {:induction false} ParsedParts(uri: string, c: Config)
    requires Parse(uri) == Some(c) && SCHEME <= uri
    ensures Dissect(uri[|SCHEME|..]).Some? && Build(Dissect(uri[|SCHEME|..]).value) == Some(c)
  {}

  /** If a TLS configuration comes back, its parts are clean. */
  lemma {:induction false} TlsOnlyClean(c: Config)
    requires c.VlessTls? && Parse(ToUri(c)) == Some(c) && INT_MIN <= c.port <= INT_MAX
    ensures TlsClean(c) && CleanFrame(c.uuid, c.connectHost, c.name)
  {
    var link := Link(c.uuid, c.connectHost, c.port, TlsParams(c), c.name);
    assert (SCHEME + link)[|SCHEME|..] == link;
    ParsedParts(ToUri(c), c);
    var p := Dissect(link).value;
    DissectClean(link);
    TlsBuilt(p, c);
    FrameCut(c.uuid, c.connectHost, c.port, TlsParams(c), c.name);
    if c.host != "" {
      TlsKeyStays(c, Param("host", c.host));
    }
    if c.sni != "" {
      TlsKeyStays(c, Param("sni", c.sni));
    }
    TlsValuesClean(p, c);
  }

  lemma {:induction false} GetClean(m: Params, key: string, default: string)
    requires (forall k | k in m :: '&' !in m[k]) && (key in m || '&' !in default)
    ensures '&' !in Get(m, key, default)
  {}

  /** The parameters that have a fixed default hold no separator. */
  lemma {:induction false} TlsPlainClean(p: Pieces, c: Config)
    requires c.VlessTls? && Build(p) == Some(c) && forall k | k in p.params :: '&' !in p.params[k]
    ensures '&' !in c.network && '&' !in c.path && '&' !in c.fingerprint && '&' !in c.alpn && '&' !in c.mode
  {
    TlsBuilt(p, c);
    GetClean(p.params, "type", "tcp");
    GetClean(p.params, "fp", "");
    GetClean(p.params, "alpn", "");
    GetClean(p.params, "mode", "");
    GetClean(p.params, "path", "/");
    UnescapeChars(Get(p.params, "path", "/"), '&');
  }

  lemma {:induction false} TlsValuesClean(p: Pieces, c: Config)
    requires c.VlessTls? && Build(p) == Some(c) && forall k | k in p.params :: '&' !in p.params[k]
    requires (c.host != "" ==> "host" in p.params) && (c.sni != "" ==> "sni" in p.params)
    ensures TlsClean(c)
  {
    TlsPlainClean(p, c);
    TlsBuilt(p, c);
    if c.host != "" {
      GetClean(p.params, "host", p.host);
    }
    if c.sni != "" {
      GetClean(p.params, "sni", p.host);
    }
  }

  lemma {:induction false} TlsBuilt(p: Pieces, c: Config)
    requires c.VlessTls? && Build(p) == Some(c)
    ensures c.uuid == p.uuid && c.connectHost == p.host && c.name == p.name
    ensures c.network == Get(p.params, "type", "tcp") && c.sni == Get(p.params, "sni", p.host) &&
            c.host == Get(p.params, "host", p.host)
    ensures c.path == Unescape(Get(p.params, "path", "/")) && c.fingerprint == Get(p.params, "fp", "")
    ensures c.alpn == Get(p.params, "alpn", "") && c.mode == Get(p.params, "mode", "")
  {}

  lemma {:induction false} TlsKeyStays(c: Config, p: Param)
    requires c.VlessTls? && (p == Param("host", c.host) || p == Param("sni", c.sni)) && p.value != ""
    ensures p.key in Query(Pieced(TlsParams(c)))
  {
    var ps := TlsParams(c);
    TlsKeys(c);
    assert p in Optional(p.key, p.value);
    assert p in ps;
    var i :| 0 <= i < |ps| && ps[i] == p;
    KeysStay(ps, i);
  }

  /** Parsing undoes printing for a TLS configuration exactly if it is `TlsExact`. */
  lemma {:induction false} TlsRoundTrip(c: Config)
    requires c.VlessTls? && INT_MIN <= c.port <= INT_MAX
    ensures Parse(ToUri(c)) == Some(c) <==> TlsExact(c)
  {
    if Parse(ToUri(c)) == Some(c) {
      TlsOnlyClean(c);
    }
    if TlsClean(c) && CleanFrame(c.uuid, c.connectHost, c.name) {
      TlsParses(c);
      RereadSame(c);
    }
  }

  // ---- REALITY links ----

  predicate RealityClean(c: Config)
    requires c.Reality?
  {
    '&' !in c.publicKey && '&' !in c.fingerprint && '&' !in c.flow && '&' !in c.sni && '&' !in c.shortId
  }

  lemma {:induction false} LookupReality(c: Config, key: string)
    requires c.Reality?
    ensures Lookup(RealityParams(c), key) ==
      if key == "sid" then Some(c.shortId)
      else if key == "sni" then Some(c.sni)
      else if key == "flow" then Some(c.flow)
      else if key == "type" then Some("tcp")
      else if key == "fp" then Some(c.fingerprint)
      else if key == "headerType" then Some("none")
      else if key == "pbk" then Some(c.publicKey)
      else if key == "encryption" then Some("none")
      else if key == "security" then Some("reality")
      else None
  {
    var a := Three(Param("security", "reality"), Param("encryption", "none"), Param("pbk", c.publicKey));
    var b := Three(Param("headerType", "none"), Param("fp", c.fingerprint), Param("type", "tcp"));
    var d := Three(Param("flow", c.flow), Param("sni", c.sni), Param("sid", c.shortId));
    LookupAppend(a, b + d, key);
    LookupAppend(b, d, key);
    LookupThree(Param("security", "reality"), Param("encryption", "none"), Param("pbk", c.publicKey), key);
    LookupThree(Param("headerType", "none"), Param("fp", c.fingerprint), Param("type", "tcp"), key);
    LookupThree(Param("flow", c.flow), Param("sni", c.sni), Param("sid", c.shortId), key);
  }

  lemma {:induction false} RealityBuilds(c: Config)
    requires c.Reality? && ProperKeys(RealityParams(c))
    ensures Build(Pieces(c.uuid, c.connectHost, c.port, Query(PiecesOf(RealityParams(c))), c.name)) == Some(c)
  {
    var ps := RealityParams(c);
    LookupReality(c, "security");
    LookupReality(c, "sni");
    LookupReality(c, "pbk");
    LookupReality(c, "sid");
    LookupReality(c, "fp");
    LookupReality(c, "flow");
    GetParam(ps, "security", "");
    GetParam(ps, "sni", "");
    GetParam(ps, "pbk", "");
    GetParam(ps, "sid", "");
    GetParam(ps, "fp", "chrome");
    GetParam(ps, "flow", "xtls-rprx-vision");
  }

  lemma {:induction false} RealityKeys(c: Config)
    requires c.Reality?
    ensures ProperKeys(RealityParams(c))
  {
    var a := KeysThree(Param("security", "reality"), Param("encryption", "none"), Param("pbk", c.publicKey));
    var b := KeysThree(Param("headerType", "none"), Param("fp", c.fingerprint), Param("type", "tcp"));
    var d := KeysThree(Param("flow", c.flow), Param("sni", c.sni), Param("sid", c.shortId));
    KeysAppend(b, d);
    KeysAppend(a, b + d);
  }

  lemma {:induction false} RealityCleanParams(c: Config)
    requires c.Reality? && RealityClean(c)
    ensures CleanParams(RealityParams(c))
  {
    var a := CleanThree(Param("security", "reality"), Param("encryption", "none"), Param("pbk", c.publicKey));
    var b := CleanThree(Param("headerType", "none"), Param("fp", c.fingerprint), Param("type", "tcp"));
    var d := CleanThree(Param("flow", c.flow), Param("sni", c.sni), Param("sid", c.shortId));
    CleanAppend(b, d);
    CleanAppend(a, b + d);
  }

  lemma {:induction false} RealityOnlyClean(c: Config)
    requires c.Reality? && Parse(ToUri(c)) == Some(c)
    ensures RealityClean(c) && CleanFrame(c.uuid, c.connectHost, c.name)
  {
    var link := Link(c.uuid, c.connectHost, c.port, RealityParams(c), c.name);
    assert (SCHEME + link)[|SCHEME|..] == link;
    ParsedParts(ToUri(c), c);
    var p := Dissect(link).value;
    DissectClean(link);
    RealityValuesClean(p, c);
  }

  lemma {:induction false} RealityValuesClean(p: Pieces, c: Config)
    requires c.Reality? && Build(p) == Some(c) && forall k | k in p.params :: '&' !in p.params[k]
    ensures RealityClean(c) && c.uuid == p.uuid && c.connectHost == p.host && c.name == p.name
  {
    GetClean(p.params, "pbk", "");
    GetClean(p.params, "fp", "chrome");
    GetClean(p.params, "flow", "xtls-rprx-vision");
    GetClean(p.params, "sni", "");
    GetClean(p.params, "sid", "");
  }

  /** Parsing undoes printing for a REALITY configuration exactly if none of its parts holds a character
      that ends it. */
  lemma {:induction false} RealityRoundTrip(c: Config)
    requires c.Reality? && INT_MIN <= c.port <= INT_MAX
    ensures Parse(ToUri(c)) == Some(c) <==> RealityClean(c) && CleanFrame(c.uuid, c.connectHost, c.name)
  {
    if Parse(ToUri(c)) == Some(c) {
      RealityOnlyClean(c);
    }
    if RealityClean(c) && CleanFrame(c.uuid, c.connectHost, c.name) {
      RealityKeys(c);
      RealityCleanParams(c);
      DissectLink(c.uuid, c.connectHost, c.port, RealityParams(c), c.name);
      var link := Link(c.uuid, c.connectHost, c.port, RealityParams(c), c.name);
      assert (SCHEME + link)[|SCHEME|..] == link;
      RealityBuilds(c);
    }
  }

  // ---- Links that do not come back ----

  /** A path that holds an escape. */
  lemma {:induction false} EscapedPath(c: Config)
    requires c.VlessTls? && INT_MIN <= c.port <= INT_MAX && c.path == "/%2F"
    ensures Parse(ToUri(c)) != Some(c)
  {
    assert CodeAt(c.path, 1);
    TlsRoundTrip(c);
  }

  /** A short id that holds a separator. */
  lemma {:induction false} SplitShortId(c: Config)
    requires c.Reality? && INT_MIN <= c.port <= INT_MAX && c.shortId == "a&b"
    ensures Parse(ToUri(c)) != Some(c)
  {
    assert c.shortId[1] == '&';
    RealityRoundTrip(c);
  }
}
