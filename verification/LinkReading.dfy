/** What any link is read as, parameter by parameter, and what a printed link looks like. */
module LinkReading {
  import opened Options
  import opened Numerals
  import opened Text
  import opened VlessUri

  /** The last value of a parameter, or what stands for it if it is not there. */
  function Given(ps: seq<Param>, key: string, default: string): string {
    if Lookup(ps, key).Some? then Lookup(ps, key).value else default
  }

  /** A link with these parameters: REALITY, TLS (also without a security or with none), or nothing at all. */
  function Meaning(uuid: string, host: string, port: int, ps: seq<Param>, name: string): Option<Config> {
    var security := Given(ps, "security", "none");
    if security == "reality" then
      Some(Reality(host, port, Given(ps, "sni", ""), Given(ps, "pbk", ""), Given(ps, "sid", ""),
                   Given(ps, "fp", "chrome"), Given(ps, "flow", "xtls-rprx-vision"), uuid, name))
    else if security == "tls" || security == "none" || security == "" then
      Some(VlessTls(host, port, Given(ps, "sni", host), Given(ps, "host", host), Unescape(Given(ps, "path", "/")),
                    uuid, Given(ps, "type", "tcp"), Given(ps, "fp", ""), Given(ps, "alpn", ""), Given(ps, "mode", ""),
                    name))
    else None
  }

  predicate InRange(port: int) {
    -0x8000_0000 <= port <= 0x7FFF_FFFF
  }

  lemma {:induction false} SchemeCut(body: string)
    ensures Parse("vless://" + body) == if Dissect(body).None? then None else Build(Dissect(body).value)
  {
    assert ("vless://" + body)[|SCHEME|..] == body;
  }

  lemma {:induction false} GivenHere(ps: seq<Param>, key: string, default: string)
    requires ProperKeys(ps)
    ensures Get(Query(PiecesOf(ps)), key, default) == Given(ps, key, default)
  {
    GetParam(ps, key, default);
  }

  lemma {:induction false} MeaningRead(uuid: string, host: string, port: int, ps: seq<Param>, name: string)
    requires ProperKeys(ps)
    ensures Build(Pieces(uuid, host, port, Query(PiecesOf(ps)), name)) == Meaning(uuid, host, port, ps, name)
  {
    GivenHere(ps, "security", "");
    GivenHere(ps, "sni", "");
    GivenHere(ps, "sni", host);
    GivenHere(ps, "pbk", "");
    GivenHere(ps, "sid", "");
    GivenHere(ps, "fp", "chrome");
    GivenHere(ps, "fp", "");
    GivenHere(ps, "flow", "xtls-rprx-vision");
    GivenHere(ps, "host", host);
    GivenHere(ps, "path", "/");
    GivenHere(ps, "type", "tcp");
    GivenHere(ps, "alpn", "");
    GivenHere(ps, "mode", "");
  }

  /** Any link with parameters, known or not and in any order, is read as what they mean. */
  lemma {:induction false} LinkReads(uuid: string, host: string, port: int, ps: seq<Param>, name: string)
    requires CleanFrame(uuid, host, name) && CleanParams(ps) && ProperKeys(ps) && ps != [] && InRange(port)
    ensures Parse("vless://" + Link(uuid, host, port, ps, name)) == Meaning(uuid, host, port, ps, name)
  {
    DissectLink(uuid, host, port, ps, name);
    SchemeCut(Link(uuid, host, port, ps, name));
    MeaningRead(uuid, host, port, ps, name);
  }

  /** `uuid@host:port` alone is TLS to the host itself. */
  lemma {:induction false} BareLinkReads(uuid: string, host: string, port: int)
    requires '@' !in uuid && '?' !in uuid && '?' !in host && '#' !in uuid && '#' !in host && InRange(port)
    ensures Parse("vless://" + (uuid + "@" + (host + ":" + PrintInt(port)))) ==
            Some(VlessTls(host, port, host, host, "/", uuid, "tcp", "", "", "", ""))
  {
    var s := uuid + "@" + (host + ":" + PrintInt(port));
    NoMark(uuid, host, port);
    ParsePrint(port);
    assert '#' !in PrintInt(port);
    assert '#' !in s;
    AuthorityRead(uuid, host, port);
    SchemeCut(s);
    SlashStays();
  }

  lemma {:induction false} SlashStays()
    ensures Unescape("/") == "/"
  {
    assert "/"[1..] == "";
  }

  lemma {:induction false} OnlySecurity(v: string, key: string, default: string)
    ensures Given([Param("security", v)], key, default) == if key == "security" then v else default
  {
    LookupOne("security", v, key);
  }

  /** A link that says nothing but its security. */
  lemma {:induction false} SecurityDecides(uuid: string, host: string, port: int, v: string, name: string)
    ensures Meaning(uuid, host, port, [Param("security", v)], name) ==
            if v == "reality" then Some(Reality(host, port, "", "", "", "chrome", "xtls-rprx-vision", uuid, name))
            else if v == "tls" || v == "none" || v == "" then
              Some(VlessTls(host, port, host, host, "/", uuid, "tcp", "", "", "", name))
            else None
  {
    OnlySecurity(v, "security", "none");
    OnlySecurity(v, "sni", "");
    OnlySecurity(v, "sni", host);
    OnlySecurity(v, "pbk", "");
    OnlySecurity(v, "sid", "");
    OnlySecurity(v, "fp", "chrome");
    OnlySecurity(v, "fp", "");
    OnlySecurity(v, "flow", "xtls-rprx-vision");
    OnlySecurity(v, "host", host);
    OnlySecurity(v, "path", "/");
    OnlySecurity(v, "type", "tcp");
    OnlySecurity(v, "alpn", "");
    OnlySecurity(v, "mode", "");
    SlashStays();
  }

  // ---- The text of a link ----

  /** A parameter behind another. */
  function Also(key: string, value: string): string {
    "&" + (key + "=" + value)
  }

  /** One without a value is left out. */
  function Perhaps(key: string, value: string): string {
    if value == "" then "" else Also(key, value)
  }

  /** All parameters behind another. */
  function Extras(ps: seq<Param>): string {
    if ps == [] then "" else Also(ps[0].key, ps[0].value) + Extras(ps[1..])
  }

  lemma {:induction false} JoinExtras(ps: seq<Param>)
    requires ps != []
    ensures Join(PiecesOf(ps), '&') == Piece(ps[0]) + Extras(ps[1..])
    decreases |ps|
  {
    if |ps| > 1 {
      assert PiecesOf(ps)[1..] == PiecesOf(ps[1..]);
      JoinExtras(ps[1..]);
      var rest := Extras(ps[1..][1..]);
      assert Piece(ps[0]) + "&" + (Piece(ps[1]) + rest) == Piece(ps[0]) + ("&" + Piece(ps[1]) + rest);
    }
  }

  lemma {:induction false} ExtrasMore(p: Param, rest: seq<Param>)
    ensures Extras([p] + rest) == Also(p.key, p.value) + Extras(rest)
  {
    assert ([p] + rest)[1..] == rest;
  }

  lemma {:induction false} ExtrasOptional(key: string, value: string, rest: seq<Param>)
    ensures Extras(Optional(key, value) + rest) == Perhaps(key, value) + Extras(rest)
  {
    if value == "" {
      assert Optional(key, value) + rest == rest;
      assert "" + Extras(rest) == Extras(rest);
    } else {
      ExtrasMore(Param(key, value), rest);
    }
  }

  lemma {:induction false} ExtrasThree(p: Param, q: Param, r: Param, rest: seq<Param>)
    ensures Extras(Three(p, q, r) + rest) ==
            Also(p.key, p.value) + (Also(q.key, q.value) + (Also(r.key, r.value) + Extras(rest)))
  {
    ExtrasMore(r, rest);
    ExtrasMore(q, [r] + rest);
    ExtrasMore(p, [q] + ([r] + rest));
    assert Three(p, q, r) + rest == [p] + ([q] + ([r] + rest));
  }

  lemma {:induction false} ThreeQuery(p: Param, q: Param, r: Param, rest: seq<Param>)
    ensures Join(PiecesOf(Three(p, q, r) + rest), '&') ==
            Piece(p) + (Also(q.key, q.value) + (Also(r.key, r.value) + Extras(rest)))
  {
    JoinExtras(Three(p, q, r) + rest);
    assert (Three(p, q, r) + rest)[1..] == [q] + ([r] + rest);
    ExtrasMore(r, rest);
    ExtrasMore(q, [r] + rest);
  }

  /** The parameters of a TLS link. */
  function TlsText(c: Config): string
    requires c.VlessTls?
  {
    "encryption=none" + (Also("security", "tls") + (Also("type", c.network) +
    (Perhaps("host", c.host) + (Perhaps("sni", c.sni) + (Perhaps("path", Escape(c.path)) +
    (Perhaps("fp", c.fingerprint) + (Perhaps("alpn", c.alpn) + Perhaps("mode", c.mode))))))))
  }

  lemma {:induction false} TlsOptions(c: Config, rest: seq<Param>)
    requires c.VlessTls?
    requires rest == Optional("fp", c.fingerprint) + (Optional("alpn", c.alpn) + Optional("mode", c.mode))
    ensures Extras(rest) == Perhaps("fp", c.fingerprint) + (Perhaps("alpn", c.alpn) + Perhaps("mode", c.mode))
  {
    ExtrasOptional("mode", c.mode, []);
    assert Optional("mode", c.mode) + [] == Optional("mode", c.mode);
    assert Perhaps("mode", c.mode) + "" == Perhaps("mode", c.mode);
    ExtrasOptional("alpn", c.alpn, Optional("mode", c.mode));
    ExtrasOptional("fp", c.fingerprint, Optional("alpn", c.alpn) + Optional("mode", c.mode));
  }

  lemma {:induction false} TlsPlaces(host: string, sni: string, path: string, rest: seq<Param>)
    ensures Extras(Optional("host", host) + (Optional("sni", sni) + (Optional("path", path) + rest))) ==
            Perhaps("host", host) + (Perhaps("sni", sni) + (Perhaps("path", path) + Extras(rest)))
  {
    ExtrasOptional("path", path, rest);
    ExtrasOptional("sni", sni, Optional("path", path) + rest);
    ExtrasOptional("host", host, Optional("sni", sni) + (Optional("path", path) + rest));
  }

  lemma {:induction false} TlsQuery(c: Config)
    requires c.VlessTls?
    ensures Join(PiecesOf(TlsParams(c)), '&') == TlsText(c)
  {
    var rest := Optional("fp", c.fingerprint) + (Optional("alpn", c.alpn) + Optional("mode", c.mode));
    var all := Optional("host", c.host) + (Optional("sni", c.sni) + (Optional("path", Escape(c.path)) + rest));
    TlsOptions(c, rest);
    TlsPlaces(c.host, c.sni, Escape(c.path), rest);
    ThreeQuery(Param("encryption", "none"), Param("security", "tls"), Param("type", c.network), all);
    assert Piece(Param("encryption", "none")) == "encryption=none";
  }

  /** The parameters of a REALITY link. */
  function RealityText(c: Config): string
    requires c.Reality?
  {
    "security=reality" + (Also("encryption", "none") + (Also("pbk", c.publicKey) +
    (Also("headerType", "none") + (Also("fp", c.fingerprint) + (Also("type", "tcp") +
    (Also("flow", c.flow) + (Also("sni", c.sni) + Also("sid", c.shortId))))))))
  }

  lemma {:induction false} RealityQuery(c: Config)
    requires c.Reality?
    ensures Join(PiecesOf(RealityParams(c)), '&') == RealityText(c)
  {
    var last := Three(Param("flow", c.flow), Param("sni", c.sni), Param("sid", c.shortId));
    assert last + [] == last;
    assert Also("sid", c.shortId) + "" == Also("sid", c.shortId);
    ExtrasThree(Param("flow", c.flow), Param("sni", c.sni), Param("sid", c.shortId), []);
    ExtrasThree(Param("headerType", "none"), Param("fp", c.fingerprint), Param("type", "tcp"), last);
    ThreeQuery(Param("security", "reality"), Param("encryption", "none"), Param("pbk", c.publicKey),
               Three(Param("headerType", "none"), Param("fp", c.fingerprint), Param("type", "tcp")) + last);
    assert Piece(Param("security", "reality")) == "security=reality";
  }

  /** A printed link, character by character. */
  lemma {:induction false} LinkText(c: Config)
    requires !c.Foreign?
    ensures ToUri(c) == "vless://" + (c.uuid + "@" + (c.connectHost + ":" + PrintInt(c.port)) + "?" +
                                      (if c.VlessTls? then TlsText(c) else RealityText(c)) + "#" + c.name)
  {
    if c.VlessTls? {
      TlsQuery(c);
    } else {
      RealityQuery(c);
    }
  }
}
