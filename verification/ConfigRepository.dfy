/** The configurations kept in memory, by link and in the order they came, and their expansion by the grid. */
module ConfigRepository {
  import opened Options
  import opened Numerals
  import opened Text
  import opened VlessUri
  import opened ConfigGrid
  import opened GridLinks

  datatype Entry = Entry(uri: string, config: Config)

  function Uris(es: seq<Entry>): set<string> {
    set e | e in es :: e.uri
  }

  function Values(es: seq<Entry>): (r: seq<Config>)
    ensures |r| == |es| && forall k | 0 <= k < |es| :: r[k] == es[k].config
  {
    seq(|es|, k requires 0 <= k < |es| => es[k].config)
  }

  /** Links that are already there keep their configuration. */
  function Put(es: seq<Entry>, e: Entry): seq<Entry> {
    if e.uri in Uris(es) then es else es + [e]
  }

  function PutAll(es: seq<Entry>, more: seq<Entry>): seq<Entry> {
    if more == [] then es else Put(PutAll(es, more[..|more| - 1]), more[|more| - 1])
  }

  function Links(cs: seq<Config>): (r: seq<Entry>)
    ensures |r| == |cs| && forall k | 0 <= k < |cs| :: r[k] == Entry(ToUri(cs[k]), cs[k])
  {
    seq(|cs|, k requires 0 <= k < |cs| => Entry(ToUri(cs[k]), cs[k]))
  }

  function Missing(es: seq<Entry>): seq<Config> {
    Generated(Cdn(Values(es)))
  }

  function Expanded(es: seq<Entry>): seq<Entry> {
    PutAll(es, Links(Missing(es)))
  }

  // ---- Adding entries ----

  lemma {:induction false} PutAllIs(es: seq<Entry>, more: seq<Entry>)
    ensures es <= PutAll(es, more)
    ensures forall e | e in PutAll(es, more)[|es|..] :: e in more && e.uri !in Uris(es)
    ensures forall e | e in more :: e.uri in Uris(PutAll(es, more))
    decreases |more|
  {
    if more != [] {
      var n := |more| - 1;
      PutAllIs(es, more[..n]);
      assert more == more[..n] + [more[n]];
      PutHas(PutAll(es, more[..n]), more[n]);
    }
  }

  lemma {:induction false} PutHas(es: seq<Entry>, e: Entry)
    ensures es <= Put(es, e)
    ensures e.uri in Uris(Put(es, e)) && Uris(es) <= Uris(Put(es, e))
  {
    if e.uri !in Uris(es) {
      assert e in es + [e];
    }
  }

  lemma {:induction false} PutAllNone(es: seq<Entry>, more: seq<Entry>)
    requires forall e | e in more :: e.uri in Uris(es)
    ensures PutAll(es, more) == es
    decreases |more|
  {
    if more != [] {
      PutAllNone(es, more[..|more| - 1]);
    }
  }

  lemma {:induction false} PutAllNext(es: seq<Entry>, more: seq<Entry>, k: nat)
    requires k < |more|
    ensures PutAll(es, more[..k + 1]) == Put(PutAll(es, more[..k]), more[k])
  {
    assert more[..k + 1][..k] == more[..k];
  }

  /** A link has at most one entry. */
  predicate Unique(es: seq<Entry>) {
    forall i, j | 0 <= i < j < |es| :: es[i].uri != es[j].uri
  }

  lemma {:induction false} PutAllUnique(es: seq<Entry>, more: seq<Entry>)
    requires Unique(es)
    ensures Unique(PutAll(es, more))
    decreases |more|
  {
    if more != [] {
      PutAllUnique(es, more[..|more| - 1]);
    }
  }

  // ---- Expanding again adds nothing ----

  predicate FromGrid(es: seq<Entry>, e: Entry) {
    e.config in Missing(es) && e.uri == ToUri(e.config)
  }

  lemma {:induction false} ExpandedParts(es: seq<Entry>)
    ensures es <= Expanded(es)
    ensures forall e | e in Expanded(es)[|es|..] :: FromGrid(es, e) && e.uri !in Uris(es)
  {
    PutAllIs(es, Links(Missing(es)));
    forall e | e in Expanded(es)[|es|..] ensures FromGrid(es, e) {
      var k :| 0 <= k < |Missing(es)| && Links(Missing(es))[k] == e;
    }
  }

  lemma {:induction false} InValues(es: seq<Entry>, c: Config)
    ensures c in Values(es) <==> exists e :: e in es && e.config == c
  {
    if c in Values(es) {
      var k :| 0 <= k < |es| && Values(es)[k] == c;
      assert es[k] in es;
    }
    if e :| e in es && e.config == c {
      var k :| 0 <= k < |es| && es[k] == e;
      assert Values(es)[k] == c;
    }
  }

  lemma {:induction false} ExpandedBetween(es: seq<Entry>)
    ensures Between(Cdn(Values(es)), Cdn(Values(Expanded(es))))
  {
    ExpandedParts(es);
    var added := Expanded(es)[|es|..];
    assert Expanded(es) == es + added;
    forall c ensures c in Values(es) ==> c in Values(es + added)
             ensures c in Values(es + added) ==> c in Values(es) || c in Missing(es)
    {
      InValues(es, c);
      InValues(es + added, c);
    }
  }

  /** Expanding twice is expanding once, whatever the links and the configurations are. */
  lemma {:induction false} ExpandedTwice(es: seq<Entry>)
    ensures Expanded(Expanded(es)) == Expanded(es)
  {
    var es' := Expanded(es);
    ExpandedBetween(es);
    PutAllIs(es, Links(Missing(es)));
    forall e | e in Links(Missing(es')) ensures e.uri in Uris(es') {
      GeneratesNoMore(Cdn(Values(es)), Cdn(Values(es')), e.config);
      var k :| 0 <= k < |Missing(es)| && Missing(es)[k] == e.config;
      assert Links(Missing(es))[k] == e;
    }
    PutAllNone(es', Links(Missing(es')));
  }

  // ---- Links and configurations agree ----

  /** Every VLESS configuration is what its link says. */
  predicate Sound(es: seq<Entry>) {
    forall e | e in es && !e.config.Foreign? :: Parse(e.uri) == Some(e.config)
  }

  lemma {:induction false} TlsParsedIs(uri: string, c: Config)
    requires Parse(uri) == Some(c) && c.VlessTls?
    ensures INT_MIN <= c.port <= INT_MAX && '?' !in c.uuid && '?' !in c.connectHost && '@' !in c.uuid &&
            !HasCode(c.path)
    ensures '&' !in c.network && '&' !in c.path && '&' !in c.fingerprint && '&' !in c.alpn && '&' !in c.mode
  {
    ParsedParts(uri, c);
    var p := Dissect(uri[|SCHEME|..]).value;
    DissectClean(uri[|SCHEME|..]);
    TlsBuilt(p, c);
    TlsPlainClean(p, c);
    UnescapeNoCode(Get(p.params, "path", "/"));
  }

  lemma {:induction false} Stored(es: seq<Entry>, c: Config)
    requires Sound(es) && c.VlessTls? && c in Values(es)
    ensures INT_MIN <= c.port <= INT_MAX && '?' !in c.uuid && '?' !in c.connectHost && '@' !in c.uuid &&
            !HasCode(c.path)
    ensures '&' !in c.network && '&' !in c.path && '&' !in c.fingerprint && '&' !in c.alpn && '&' !in c.mode
  {
    var k :| 0 <= k < |es| && Values(es)[k] == c;
    assert es[k] in es;
    TlsParsedIs(es[k].uri, c);
  }

  lemma {:induction false} MissingGridlike(es: seq<Entry>, g: Config)
    requires Sound(es) && g in Missing(es)
    ensures Gridlike(g) && !HasCode(g.path)
  {
    var cs := Cdn(Values(es));
    GeneratedIs(cs, g);
    InBackends(cs, BackendOf(g));
    var c :| c in cs && c.connectHost in CdnIps(cs) && BackendOf(c) == BackendOf(g);
    Stored(es, c);
    InCdnIps(cs, g.connectHost);
    var d :| d in cs && d.connectHost == g.connectHost;
    Stored(es, d);
  }

  /** A link generated from what links say is read back exactly if it is printable. */
  lemma {:induction false} MissingReadBack(es: seq<Entry>, g: Config)
    requires Sound(es) && g in Missing(es)
    ensures g.VlessTls? && (Parse(ToUri(g)) == Some(g) <==> Printable(g))
  {
    MissingGridlike(es, g);
    ExactPrintable(g);
    TlsRoundTrip(g);
  }

  /** An address and a backend that the next expansion brings together under a new link. */
  predicate Due(es: seq<Entry>, ip: string, b: Backend) {
    var cs := Cdn(Values(es));
    && ip in CdnIps(cs) && b in Backends(cs) && Key(ip, b.host, b.path) !in Existing(cs)
    && ToUri(Make(ip, b)) !in Uris(es)
  }

  /** What the address and the backend must be for the link of the two to be read back. */
  predicate Prints(ip: string, b: Backend) {
    && b.path != "" && (b.host != "" || ip == "") && '&' !in b.host
    && '#' !in Before(b.host, '.') && '#' !in AfterLast(ip, '.')
  }

  lemma {:induction false} PrintsMade(ip: string, b: Backend)
    ensures Printable(Make(ip, b)) <==> Prints(ip, b)
  {
    var front, back := Before(b.host, '.'), AfterLast(ip, '.');
    assert '#' in front + "-" + back <==> '#' in front || '#' in back;
  }

  lemma {:induction false} DueMissing(es: seq<Entry>, ip: string, b: Backend)
    requires Due(es, ip, b)
    ensures Make(ip, b) in Missing(es)
  {
    var cs := Cdn(Values(es));
    SomeIp(cs, ip);
    InGrid(Backends(cs), CdnIps(cs), Existing(cs), Make(ip, b));
  }

  lemma {:induction false} AddedDue(es: seq<Entry>, e: Entry) returns (ip: string, b: Backend)
    requires e.config in Missing(es) && e.uri == ToUri(e.config) && e.uri !in Uris(es)
    ensures Due(es, ip, b) && e.config == Make(ip, b)
  {
    GeneratedIs(Cdn(Values(es)), e.config);
    ip, b := e.config.connectHost, BackendOf(e.config);
  }

  /** If everything that is due prints, every added link says what its configuration is. */
  lemma {:induction false} AddedReadBack(es: seq<Entry>, e: Entry)
    requires Sound(es) && AllPrint(es)
    requires es <= Expanded(es) && e in Expanded(es)[|es|..]
    ensures Parse(e.uri) == Some(e.config)
  {
    ExpandedParts(es);
    var ip, b := AddedDue(es, e);
    PrintsMade(ip, b);
    MissingReadBack(es, e.config);
  }

  /** What is due is added under its link, or something else with the same link is; both print or neither. */
  lemma {:induction false} DuePrints(es: seq<Entry>, ip: string, b: Backend)
    requires Sound(es) && Sound(Expanded(es)) && Due(es, ip, b)
    ensures Prints(ip, b)
  {
    var g := Make(ip, b);
    DueMissing(es, ip, b);
    var e := AddedLink(es, g);
    assert e in Expanded(es);
    MissingReadBack(es, e.config);
    MissingGridlike(es, e.config);
    MissingGridlike(es, g);
    SameLink(e.config, g);
    PrintsMade(ip, b);
  }

  lemma {:induction false} LinkPut(es: seq<Entry>, more: seq<Entry>, e: Entry)
    requires e in more
    ensures e.uri in Uris(PutAll(es, more))
  {
    PutAllIs(es, more);
  }

  lemma {:induction false} LinkAt(es: seq<Entry>, uri: string) returns (i: nat)
    requires uri in Uris(es)
    ensures i < |es| && es[i].uri == uri
  {
    var e :| e in es && e.uri == uri;
    i :| 0 <= i < |es| && es[i] == e;
  }

  lemma {:induction false} InLinks(cs: seq<Config>, c: Config)
    requires c in cs
    ensures Entry(ToUri(c), c) in Links(cs)
  {
    var k :| 0 <= k < |cs| && cs[k] == c;
    assert Links(cs)[k] == Entry(ToUri(c), c);
  }

  lemma {:induction false} AddedLink(es: seq<Entry>, g: Config) returns (e: Entry)
    requires g in Missing(es) && ToUri(g) !in Uris(es)
    ensures e in Expanded(es) && e.uri == ToUri(g) && FromGrid(es, e)
  {
    InLinks(Missing(es), g);
    LinkPut(es, Links(Missing(es)), Entry(ToUri(g), g));
    var j := LinkAt(Expanded(es), ToUri(g));
    e := Expanded(es)[j];
    ExpandedParts(es);
    AfterOld(es, Expanded(es), j);
  }

  lemma {:induction false} OldLinks(es: seq<Entry>)
    ensures forall i | 0 <= i < |es| :: es[i].uri in Uris(es)
  {
    forall i | 0 <= i < |es| ensures es[i].uri in Uris(es) {
      assert es[i] in es;
    }
  }

  lemma {:induction false} AfterOld(es: seq<Entry>, es': seq<Entry>, j: nat)
    requires es <= es' && j < |es'| && es'[j].uri !in Uris(es)
    ensures es'[j] in es'[|es|..]
  {
    OldLinks(es);
    assert es'[|es|..][j - |es|] == es'[j];
  }

  ghost predicate AllPrint(es: seq<Entry>) {
    forall ip, b | Due(es, ip, b) :: Prints(ip, b)
  }

  lemma {:induction false} PrintedSound(es: seq<Entry>)
    requires Sound(es) && AllPrint(es)
    ensures Sound(Expanded(es))
  {
    ExpandedParts(es);
    var added := Expanded(es)[|es|..];
    assert Expanded(es) == es + added;
    forall e | e in added ensures Parse(e.uri) == Some(e.config) {
      AddedReadBack(es, e);
    }
    SoundAppend(es, added);
  }

  lemma {:induction false} SoundAppend(a: seq<Entry>, b: seq<Entry>)
    requires Sound(a) && forall e | e in b :: Parse(e.uri) == Some(e.config)
    ensures Sound(a + b)
  {}

  /** The expansion keeps links and configurations in agreement exactly if every pair that is due prints. */
  lemma {:induction false} ExpandedSound(es: seq<Entry>)
    requires Sound(es)
    ensures Sound(Expanded(es)) <==> AllPrint(es)
  {
    if Sound(Expanded(es)) {
      forall ip, b | Due(es, ip, b) ensures Prints(ip, b) {
        DuePrints(es, ip, b);
      }
    }
    if AllPrint(es) {
      PrintedSound(es);
    }
  }

  /** Links without bars, of which some host has a hash in its first label, as in "a#b.example": the link generated
      for an address that lacks the host is read back as another configuration. */
  lemma {:induction false} HashInHost(es: seq<Entry>, c: Config, ip: string)
    requires Sound(es) && NoBars(Cdn(Values(es))) && c in Cdn(Values(es)) && '#' in Before(c.host, '.')
    requires c.connectHost in CdnIps(Cdn(Values(es))) && ip in CdnIps(Cdn(Values(es)))
    requires forall d | d in Cdn(Values(es)) && d.connectHost == ip :: d.host != c.host
    ensures var g := Make(ip, BackendOf(c)); g in Missing(es) && Parse(ToUri(g)) != Some(g)
  {
    AddsMissing(Cdn(Values(es)), c, ip);
    MissingReadBack(es, Make(ip, BackendOf(c)));
  }

  lemma {:induction false} LastChar(c: Config)
    requires c.VlessTls?
    ensures ToUri(c) != "" && ToUri(c)[|ToUri(c)| - 1] == if c.name == "" then '#' else c.name[|c.name| - 1]
  {}

  lemma {:induction false} NameEnds(ip: string, b: Backend)
    requires '#' !in ip
    ensures var name := Make(ip, b).name; name != "" && name[|name| - 1] != '#'
  {
    var front, tail := Before(b.host, '.') + "-", AfterLast(ip, '.');
    assert (front + tail)[|front| - 1] == '-';
    assert tail != "" ==> tail[|tail| - 1] in tail;
  }

  /** The link of a configuration without a name ends in a hash; that of a generated one does not. */
  lemma {:induction false} LinksDiffer(c: Config, ip: string, b: Backend)
    requires c.VlessTls? && c.name == "" && '#' !in ip
    ensures ToUri(c) != ToUri(Make(ip, b))
  {
    NameEnds(ip, b);
    LastChar(c);
    LastChar(Make(ip, b));
  }

  /** A nameless configuration that is read back from its link. */
  predicate Nameless(c: Config) {
    IsCdn(c) && Parse(ToUri(c)) == Some(c) && c.name == "" && '|' !in c.connectHost && '|' !in c.host
  }

  ghost predicate AllNameless(configs: seq<Config>) {
    forall c {:trigger Nameless(c)} :: c in configs ==> Nameless(c)
  }

  lemma {:induction false} LinkOf(configs: seq<Config>, e: Entry)
    requires e in Links(configs)
    ensures e.config in configs && e.uri == ToUri(e.config)
  {
    var k :| 0 <= k < |configs| && Links(configs)[k] == e;
  }

  lemma {:induction false} NamelessLinks(configs: seq<Config>)
    requires AllNameless(configs)
    ensures Values(Links(configs)) == configs && Sound(Links(configs)) && NoBars(Cdn(configs))
  {
    forall e | e in Links(configs) ensures Parse(e.uri) == Some(e.config) {
      LinkOf(configs, e);
      assert Nameless(e.config);
    }
    forall c | c in Cdn(configs) ensures '|' !in c.connectHost && '|' !in c.host {
      assert Nameless(c);
    }
  }

  lemma {:induction false} NamelessDue(configs: seq<Config>, ip: string, b: Backend)
    requires AllNameless(configs) && Make(ip, b) in Missing(Links(configs)) && '#' !in ip
    ensures Due(Links(configs), ip, b)
  {
    GeneratedIs(Cdn(Values(Links(configs))), Make(ip, b));
    if ToUri(Make(ip, b)) in Uris(Links(configs)) {
      var i := LinkAt(Links(configs), ToUri(Make(ip, b)));
      assert Nameless(configs[i]);
      LinksDiffer(configs[i], ip, b);
    }
  }

  lemma {:induction false} OneOfFour(configs: seq<Config>, c: Config)
    requires |configs| == 4
    ensures c in configs <==> c == configs[0] || c == configs[1] || c == configs[2] || c == configs[3]
  {}

  /** Two addresses, each with two hosts, where one host has a hash in its first label and stands at one address
      only: all links are read as they should be, and the expansion adds one that is not. */
  lemma {:induction false} HashFails(configs: seq<Config>)
    requires |configs| == 4 && AllNameless(configs) && Nameless(configs[0]) && Nameless(configs[1])
    requires Nameless(configs[2]) && Nameless(configs[3])
    requires configs[0].connectHost == configs[1].connectHost != configs[2].connectHost == configs[3].connectHost
    requires configs[0].host != configs[1].host && configs[0].host != configs[2].host
    requires configs[2].host != configs[3].host && configs[3].host != configs[0].host
    requires '#' in Before(configs[0].host, '.') && '#' !in configs[2].connectHost
    ensures Sound(Links(configs)) && !Sound(Expanded(Links(configs)))
  {
    var es, ip, b := Links(configs), configs[2].connectHost, BackendOf(configs[0]);
    NamelessLinks(configs);
    TwoHosts(configs, configs[0], configs[1]);
    TwoHosts(configs, configs[2], configs[3]);
    forall d | d in Cdn(configs) && d.connectHost == ip ensures d.host != configs[0].host {
      OneOfFour(configs, d);
    }
    HashInHost(es, configs[0], ip);
    NamelessDue(configs, ip, b);
    ExpandedSound(es);
  }

  predicate Plain(s: string) {
    s != "" && '|' !in s && '&' !in s && '?' !in s && '@' !in s
  }

  lemma {:induction false} SampleNameless(c: Config, ip: string, host: string, u: string)
    requires c == Sample(ip, host, u) && Plain(ip) && Plain(host) && Plain(u)
    ensures Nameless(c)
  {
    assert !HasCode(c.path);
    assert TlsExact(c);
    TlsRoundTrip(c);
  }

  lemma {:induction false} FourNameless(configs: seq<Config>)
    requires |configs| == 4 && Nameless(configs[0]) && Nameless(configs[1]) && Nameless(configs[2]) &&
             Nameless(configs[3])
    ensures AllNameless(configs)
  {
    forall c | c in configs ensures Nameless(c) {
      OneOfFour(configs, c);
    }
  }

  function HashConfigs(ip: string, ip2: string, h: string, h2: string, h3: string, u: string): seq<Config> {
    [Sample(ip, h, u), Sample(ip, h2, u), Sample(ip2, h2, u), Sample(ip2, h3, u)]
  }

  lemma {:induction false} HashNameless(cs: seq<Config>, ip: string, ip2: string, h: string, h2: string, h3: string,
                                        u: string)
    requires Plain(ip) && Plain(ip2) && Plain(h) && Plain(h2) && Plain(h3) && Plain(u) && |cs| == 4
    requires cs[0] == Sample(ip, h, u) && cs[1] == Sample(ip, h2, u)
    requires cs[2] == Sample(ip2, h2, u) && cs[3] == Sample(ip2, h3, u)
    ensures Nameless(cs[0]) && Nameless(cs[1]) && Nameless(cs[2]) && Nameless(cs[3]) && AllNameless(cs)
  {
    SampleNameless(cs[0], ip, h, u);
    SampleNameless(cs[1], ip, h2, u);
    SampleNameless(cs[2], ip2, h2, u);
    SampleNameless(cs[3], ip2, h3, u);
    FourNameless(cs);
  }

  lemma {:induction false} HashSample(ip: string, ip2: string, h: string, h2: string, h3: string, u: string)
    returns (es: seq<Entry>)
    requires Plain(ip) && Plain(ip2) && Plain(h) && Plain(h2) && Plain(h3) && Plain(u)
    requires ip != ip2 && h != h2 && h != h3 && h2 != h3 && '#' in Before(h, '.') && '#' !in ip2
    ensures es == Links(HashConfigs(ip, ip2, h, h2, h3, u))
    ensures Sound(es) && !Sound(Expanded(es))
  {
    HashNameless(HashConfigs(ip, ip2, h, h2, h3, u), ip, ip2, h, h2, h3, u);
    HashFails(HashConfigs(ip, ip2, h, h2, h3, u));
    es := Links(HashConfigs(ip, ip2, h, h2, h3, u));
  }

  /** In particular for the hosts a#b, c and d at the addresses 1 and 2. */
  lemma {:induction false} HashExample() returns (es: seq<Entry>)
    ensures es == Links(HashConfigs("1", "2", "a#b", "c", "d", "u"))
    ensures Sound(es) && !Sound(Expanded(es))
  {
    var h := "a#b";
    assert '.' !in h && h[1] == '#';
    es := HashSample("1", "2", h, "c", "d", "u");
  }

  // ---- The repository ----

  class Repository {
    var configs: seq<Entry>            // one per link, in the order of arrival
    var availableProtocols: set<string>

    /** A link has at most one configuration. */
    ghost predicate Valid()
      reads this
    {
      Unique(configs)
    }

    /** The loop of refreshFromRemote over what was fetched. */
    method AddFetched(fetched: seq<Entry>) returns (newCount: nat)
      requires Valid()
      modifies this`configs
      ensures Valid() && configs == PutAll(old(configs), fetched)
      ensures newCount == |configs| - |old(configs)|
    {
      PutAllUnique(configs, fetched);
      newCount := 0;
      for k := 0 to |fetched|
        invariant configs == PutAll(old(configs), fetched[..k])
        invariant newCount == |configs| - |old(configs)|
      {
        PutAllNext(old(configs), fetched, k);
        if fetched[k].uri !in Uris(configs) {
          configs := configs + [fetched[k]];
          newCount := newCount + 1;
        }
      }
      assert fetched[..|fetched|] == fetched;
    }

    /** expandWithGridSearch */
    method ExpandWithGridSearch()
      requires Valid()
      modifies this
      ensures Valid() && configs == Expanded(old(configs))
      ensures availableProtocols == old(availableProtocols) + if configs == old(configs) then {} else {"vless"}
    {
      var gridConfigs := Generate(Values(configs));
      AddGrid(gridConfigs, Links(gridConfigs));
    }

    /** The loop of expandWithGridSearch. */
    method AddGrid(gridConfigs: seq<Config>, ghost links: seq<Entry>)
      requires Valid() && links == Links(gridConfigs)
      modifies this
      ensures Valid() && configs == PutAll(old(configs), links)
      ensures availableProtocols == old(availableProtocols) + if configs == old(configs) then {} else {"vless"}
    {
      ghost var was := configs;
      PutAllUnique(was, links);
      for k := 0 to |gridConfigs|
        invariant configs == PutAll(was, links[..k]) && |was| <= |configs|
        invariant |configs| == |was| ==> configs == was
        invariant availableProtocols == old(availableProtocols) + if |configs| == |was| then {} else {"vless"}
      {
        PutAllNext(was, links, k);
        var uri := ToUri(gridConfigs[k]);
        if uri !in Uris(configs) {
          configs := configs + [Entry(uri, gridConfigs[k])];
          availableProtocols := availableProtocols + {"vless"};
        }
      }
      assert links[..|links|] == links;
    }
  }
}
