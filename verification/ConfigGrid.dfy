/** The grid of CDN configurations: every CDN address is paired with every backend that is reached through
    one. */
module ConfigGrid {
  import opened Text
  import opened VlessUri

  /** What a backend is, apart from the address it is reached at. */
  datatype Backend = Backend(host: string, path: string, uuid: string, port: int, network: string,
                             fingerprint: string, alpn: string, mode: string)

  function BackendOf(c: Config): Backend
    requires c.VlessTls?
  {
    Backend(c.host, c.path, c.uuid, c.port, c.network, c.fingerprint, c.alpn, c.mode)
  }

  predicate IsCdn(c: Config) {
    c.VlessTls? && (c.network == "ws" || c.network == "xhttp")
  }

  type CdnConfig = c: Config | IsCdn(c)
    witness VlessTls("", 0, "", "", "", "", "ws", "", "", "", "")

  function Cdn(configs: seq<Config>): (r: seq<CdnConfig>)
    ensures forall c :: c in r <==> c in configs && IsCdn(c)
  {
    if configs == [] then []
    else
      var n := |configs| - 1;
      var r := Cdn(configs[..n]);
      assert configs == configs[..n] + [configs[n]];
      if IsCdn(configs[n]) then r + [configs[n]] else r
  }

  /** Repetitions are left out; the first occurrences keep their order. */
  function Distinct<T(==, !new)>(s: seq<T>): (r: seq<T>)
    ensures forall x :: x in r <==> x in s
    ensures forall i, j | 0 <= i < j < |r| :: r[i] != r[j]
  {
    if s == [] then []
    else
      var n := |s| - 1;
      var r := Distinct(s[..n]);
      assert s == s[..n] + [s[n]];
      if s[n] in r then r else r + [s[n]]
  }

  function HostsAt(cs: seq<CdnConfig>, ip: string): (r: seq<string>)
    ensures forall h :: h in r <==> exists c :: c in cs && c.connectHost == ip && c.host == h
  {
    if cs == [] then []
    else
      var n := |cs| - 1;
      var r := HostsAt(cs[..n], ip);
      assert cs == cs[..n] + [cs[n]];
      if cs[n].connectHost == ip then r + [cs[n].host] else r
  }

  predicate IsCdnIp(cs: seq<CdnConfig>, ip: string) {
    |Distinct(HostsAt(cs, ip))| >= 2
  }

  function Ips(cs: seq<CdnConfig>): (r: seq<string>)
    ensures forall ip :: ip in r <==> exists c :: c in cs && c.connectHost == ip
  {
    if cs == [] then []
    else
      var n := |cs| - 1;
      assert cs == cs[..n] + [cs[n]];
      Ips(cs[..n]) + [cs[n].connectHost]
  }

  /** An address that is used with two different hosts. */
  predicate HasTwoHosts(cs: seq<CdnConfig>, ip: string) {
    exists a, b | a in cs && b in cs :: a.connectHost == ip && b.connectHost == ip && a.host != b.host
  }

  lemma {:induction false} CdnIpHasTwoHosts(cs: seq<CdnConfig>, ip: string)
    ensures IsCdnIp(cs, ip) <==> HasTwoHosts(cs, ip)
  {
    var d := Distinct(HostsAt(cs, ip));
    if |d| >= 2 {
      assert d[0] in d && d[1] in d && d[0] != d[1];
      var a :| a in cs && a.connectHost == ip && a.host == d[0];
      var b :| b in cs && b.connectHost == ip && b.host == d[1];
    }
    if a, b :| a in cs && b in cs && a.connectHost == ip && b.connectHost == ip && a.host != b.host {
      assert a.host in d && b.host in d;
    }
  }

  function KeepCdn(ips: seq<string>, cs: seq<CdnConfig>): (r: seq<string>)
    ensures forall ip :: ip in r <==> ip in ips && IsCdnIp(cs, ip)
  {
    if ips == [] then []
    else
      var n := |ips| - 1;
      var r := KeepCdn(ips[..n], cs);
      assert ips == ips[..n] + [ips[n]];
      if IsCdnIp(cs, ips[n]) then r + [ips[n]] else r
  }

  /** The addresses that belong to a CDN. */
  function CdnIps(cs: seq<CdnConfig>): seq<string> {
    KeepCdn(Distinct(Ips(cs)), cs)
  }

  function BackendsAt(cs: seq<CdnConfig>, ips: seq<string>): (r: seq<Backend>)
    ensures forall b :: b in r <==> exists c :: c in cs && c.connectHost in ips && BackendOf(c) == b
  {
    if cs == [] then []
    else
      var n := |cs| - 1;
      var r := BackendsAt(cs[..n], ips);
      assert cs == cs[..n] + [cs[n]];
      if cs[n].connectHost in ips then r + [BackendOf(cs[n])] else r
  }

  function Backends(cs: seq<CdnConfig>): seq<Backend> {
    Distinct(BackendsAt(cs, CdnIps(cs)))
  }

  function Key(ip: string, host: string, path: string): string {
    ip + "|" + host + "|" + path
  }

  function KeyOf(c: CdnConfig): string {
    Key(c.connectHost, c.host, c.path)
  }

  function Existing(cs: seq<CdnConfig>): set<string> {
    set c | c in cs :: KeyOf(c)
  }

  function Before(s: string, c: char): string {
    CutFirst(s, c).front
  }

  function AfterLast(s: string, c: char): string {
    var r := CutLast(s, c);
    if r.found then r.back else s
  }

  /** The configuration that pairs an address with a backend. */
  function Make(ip: string, b: Backend): Config {
    VlessTls(ip, b.port, b.host, b.host, b.path, b.uuid, b.network, b.fingerprint, b.alpn, b.mode,
             Before(b.host, '.') + "-" + AfterLast(ip, '.'))
  }

  function Row(b: Backend, ips: seq<string>, existing: set<string>): seq<Config> {
    if ips == [] then []
    else
      var n := |ips| - 1;
      var r := Row(b, ips[..n], existing);
      if Key(ips[n], b.host, b.path) !in existing then r + [Make(ips[n], b)] else r
  }

  function Grid(bs: seq<Backend>, ips: seq<string>, existing: set<string>): seq<Config> {
    if bs == [] then []
    else
      var n := |bs| - 1;
      Grid(bs[..n], ips, existing) + Row(bs[n], ips, existing)
  }

  lemma {:induction false} InRow(b: Backend, ips: seq<string>, existing: set<string>, c: Config)
    ensures c in Row(b, ips, existing) <==> exists ip ::
            ip in ips && Key(ip, b.host, b.path) !in existing && c == Make(ip, b)
    decreases |ips|
  {
    if ips != [] {
      var n := |ips| - 1;
      InRow(b, ips[..n], existing, c);
      assert ips == ips[..n] + [ips[n]];
    }
  }

  lemma {:induction false} InGrid(bs: seq<Backend>, ips: seq<string>, existing: set<string>, c: Config)
    ensures c in Grid(bs, ips, existing) <==>
              exists b, ip :: b in bs && ip in ips && Key(ip, b.host, b.path) !in existing && c == Make(ip, b)
    decreases |bs|
  {
    if bs != [] {
      var n := |bs| - 1;
      InGrid(bs[..n], ips, existing, c);
      InRow(bs[n], ips, existing, c);
      assert bs == bs[..n] + [bs[n]];
    }
  }

  /** The configurations that are missing from the grid. */
  function Generated(cs: seq<CdnConfig>): seq<Config> {
    if |cs| < 2 then [] else Grid(Backends(cs), CdnIps(cs), Existing(cs))
  }

  // ---- Generating again finds nothing ----

  lemma {:induction false} InBackends(cs: seq<CdnConfig>, b: Backend)
    ensures b in Backends(cs) <==> exists c :: c in cs && c.connectHost in CdnIps(cs) && BackendOf(c) == b
  {}

  lemma {:induction false} InCdnIps(cs: seq<CdnConfig>, ip: string)
    ensures ip in CdnIps(cs) <==> HasTwoHosts(cs, ip)
  {
    CdnIpHasTwoHosts(cs, ip);
    if HasTwoHosts(cs, ip) {
      var a, b :| a in cs && b in cs && a.connectHost == ip && b.connectHost == ip && a.host != b.host;
      assert ip in Ips(cs);
    }
  }

  /** What is generated belongs to a CDN, and its address and backend were there before. */
  lemma {:induction false} GeneratedIs(cs: seq<CdnConfig>, c: Config)
    requires c in Generated(cs)
    ensures IsCdn(c) && c.connectHost in CdnIps(cs) && BackendOf(c) in Backends(cs) &&
            c == Make(c.connectHost, BackendOf(c))
    ensures KeyOf(c) !in Existing(cs)
  {
    InGrid(Backends(cs), CdnIps(cs), Existing(cs), c);
    var b, ip :| b in Backends(cs) && ip in CdnIps(cs) && Key(ip, b.host, b.path) !in Existing(cs) && c == Make(ip, b);
    InBackends(cs, b);
    var d :| d in cs && d.connectHost in CdnIps(cs) && BackendOf(d) == b;
  }

  /** `cs'` is `cs` with some of what is generated from it. */
  ghost predicate Between(cs: seq<CdnConfig>, cs': seq<CdnConfig>) {
    (forall c | c in cs :: c in cs') && (forall c | c in cs' :: c in cs || c in Generated(cs))
  }

  lemma {:induction false} SameIps(cs: seq<CdnConfig>, cs': seq<CdnConfig>, ip: string)
    requires Between(cs, cs')
    ensures ip in CdnIps(cs') <==> ip in CdnIps(cs)
  {
    InCdnIps(cs, ip);
    InCdnIps(cs', ip);
    if HasTwoHosts(cs', ip) {
      var a, b :| a in cs' && b in cs' && a.connectHost == ip && b.connectHost == ip && a.host != b.host;
      if a !in cs {
        GeneratedIs(cs, a);
      } else if b !in cs {
        GeneratedIs(cs, b);
      }
    }
  }

  lemma {:induction false} SameBackends(cs: seq<CdnConfig>, cs': seq<CdnConfig>, b: Backend)
    requires Between(cs, cs')
    ensures b in Backends(cs') <==> b in Backends(cs)
  {
    InBackends(cs, b);
    InBackends(cs', b);
    if b in Backends(cs') {
      var c :| c in cs' && c.connectHost in CdnIps(cs') && BackendOf(c) == b;
      SameIps(cs, cs', c.connectHost);
      if c !in cs {
        GeneratedIs(cs, c);
      }
    }
    if b in Backends(cs) {
      var c :| c in cs && c.connectHost in CdnIps(cs) && BackendOf(c) == b;
      SameIps(cs, cs', c.connectHost);
    }
  }

  lemma {:induction false} SomeIp(cs: seq<CdnConfig>, ip: string)
    requires ip in CdnIps(cs)
    ensures |cs| >= 2
  {
    InCdnIps(cs, ip);
    var a, b :| a in cs && b in cs && a.connectHost == ip && b.connectHost == ip && a.host != b.host;
    var i :| 0 <= i < |cs| && cs[i] == a;
    var j :| 0 <= j < |cs| && cs[j] == b;
    assert i != j;
  }

  /** What is generated from more was generated before. */
  lemma {:induction false} GeneratesNoMore(cs: seq<CdnConfig>, cs': seq<CdnConfig>, c: Config)
    requires Between(cs, cs') && c in Generated(cs')
    ensures c in Generated(cs)
  {
    GeneratedIs(cs', c);
    SameIps(cs, cs', c.connectHost);
    SameBackends(cs, cs', BackendOf(c));
    SomeIp(cs, c.connectHost);
    assert Existing(cs) <= Existing(cs');
    InGrid(Backends(cs), CdnIps(cs), Existing(cs), c);
  }

  /** Once everything that is generated has joined the list, nothing is generated. */
  lemma {:induction false} NotAgain(cs: seq<CdnConfig>, cs': seq<CdnConfig>, c: Config)
    requires Between(cs, cs') && forall g | g in Generated(cs) :: g in cs'
    ensures c !in Generated(cs')
  {
    if c in Generated(cs') {
      GeneratesNoMore(cs, cs', c);
      GeneratedIs(cs', c);
    }
  }

  lemma {:induction false} JoinedBetween(configs: seq<Config>)
    ensures Between(Cdn(configs), Cdn(configs + Generated(Cdn(configs))))
    ensures forall g | g in Generated(Cdn(configs)) :: g in Cdn(configs + Generated(Cdn(configs)))
  {
    forall g | g in Generated(Cdn(configs)) ensures IsCdn(g) {
      GeneratedIs(Cdn(configs), g);
    }
  }

  /** One call fills the grid: generating from the list and its own output gives nothing. */
  lemma {:induction false} Fixpoint(configs: seq<Config>)
    ensures Generated(Cdn(configs + Generated(Cdn(configs)))) == []
  {
    var cs' := Cdn(configs + Generated(Cdn(configs)));
    JoinedBetween(configs);
    if Generated(cs') != [] {
      NotAgain(Cdn(configs), cs', Generated(cs')[0]);
    }
  }

  // ---- What the grid covers ----

  predicate Paired(cs: seq<CdnConfig>, ip: string, b: Backend) {
    exists c :: c in cs && c.connectHost == ip && BackendOf(c) == b
  }

  /** After one call a CDN address has a backend if and only if it had it before, or no configuration had the
      address, host and path of the two. */
  lemma {:induction false} Coverage(configs: seq<Config>, ip: string, b: Backend)
    requires ip in CdnIps(Cdn(configs)) && b in Backends(Cdn(configs))
    ensures var cs := Cdn(configs);
      Paired(Cdn(configs + Generated(cs)), ip, b) <==>
        Paired(cs, ip, b) || Key(ip, b.host, b.path) !in Existing(cs)
  {
    var cs := Cdn(configs);
    var cs' := Cdn(configs + Generated(cs));
    JoinedBetween(configs);
    if c :| c in cs' && c.connectHost == ip && BackendOf(c) == b {
      if c !in cs {
        GeneratedIs(cs, c);
      }
    }
    if c :| c in cs && c.connectHost == ip && BackendOf(c) == b {
      assert c in cs';
    } else if Key(ip, b.host, b.path) !in Existing(cs) {
      SomeIp(cs, ip);
      InGrid(Backends(cs), CdnIps(cs), Existing(cs), Make(ip, b));
      assert Make(ip, b) in Generated(cs);
      assert Make(ip, b) in cs';
    }
  }

  /** Keys are told apart if neither addresses nor hosts contain a bar. */
  lemma {:induction false} KeysDiffer(ip: string, host: string, path: string, ip': string, host': string, path': string)
    requires '|' !in ip && '|' !in host && '|' !in ip' && '|' !in host'
    requires Key(ip, host, path) == Key(ip', host', path')
    ensures ip == ip' && host == host' && path == path'
  {
    var rest, rest' := host + "|" + path, host' + "|" + path';
    assert Key(ip, host, path) == ip + "|" + rest && Key(ip', host', path') == ip' + "|" + rest';
    CutFirstIn(ip, '|', rest);
    CutFirstIn(ip', '|', rest');
    CutFirstIn(host, '|', path);
    CutFirstIn(host', '|', path');
  }

  predicate NoBars(cs: seq<CdnConfig>) {
    forall c | c in cs :: '|' !in c.connectHost && '|' !in c.host
  }

  /** Without bars, a CDN address gets every backend whose host it lacks. */
  lemma {:induction false} AddsMissing(cs: seq<CdnConfig>, c: CdnConfig, ip: string)
    requires NoBars(cs) && c in cs && c.connectHost in CdnIps(cs) && ip in CdnIps(cs)
    requires forall d | d in cs && d.connectHost == ip :: d.host != c.host
    ensures Make(ip, BackendOf(c)) in Generated(cs)
  {
    var b := BackendOf(c);
    InBackends(cs, b);
    InCdnIps(cs, ip);
    if Key(ip, b.host, b.path) in Existing(cs) {
      var d :| d in cs && KeyOf(d) == Key(ip, b.host, b.path);
      KeysDiffer(d.connectHost, d.host, d.path, ip, b.host, b.path);
    }
    SomeIp(cs, ip);
    InGrid(Backends(cs), CdnIps(cs), Existing(cs), Make(ip, b));
  }

  /** An address, a host and a path in one configuration. */
  predicate Served(cs: seq<CdnConfig>, ip: string, host: string, path: string) {
    exists c :: c in cs && c.connectHost == ip && c.host == host && c.path == path
  }

  /** After one call a CDN address serves the host and path of a backend if and only if it did so before, or no
      configuration has the three as its key. */
  lemma {:induction false} ServedExactly(configs: seq<Config>, ip: string, b: Backend)
    requires ip in CdnIps(Cdn(configs)) && b in Backends(Cdn(configs))
    ensures var cs := Cdn(configs);
      Served(Cdn(configs + Generated(cs)), ip, b.host, b.path) <==>
        Served(cs, ip, b.host, b.path) || Key(ip, b.host, b.path) !in Existing(cs)
  {
    var cs := Cdn(configs);
    var cs' := Cdn(configs + Generated(cs));
    JoinedBetween(configs);
    if c :| c in cs' && c.connectHost == ip && c.host == b.host && c.path == b.path {
      if c !in cs {
        GeneratedIs(cs, c);
      }
    }
    if c :| c in cs && c.connectHost == ip && c.host == b.host && c.path == b.path {
      assert c in cs';
    } else if Key(ip, b.host, b.path) !in Existing(cs) {
      Coverage(configs, ip, b);
    }
  }

  /** Without bars in addresses and hosts, every CDN address serves the host and path of every backend. */
  lemma {:induction false} EveryPairServed(configs: seq<Config>, ip: string, b: Backend)
    requires NoBars(Cdn(configs)) && ip in CdnIps(Cdn(configs)) && b in Backends(Cdn(configs))
    ensures Served(Cdn(configs + Generated(Cdn(configs))), ip, b.host, b.path)
  {
    var cs := Cdn(configs);
    ServedExactly(configs, ip, b);
    if Key(ip, b.host, b.path) in Existing(cs) {
      var d :| d in cs && KeyOf(d) == Key(ip, b.host, b.path);
      InBackends(cs, b);
      InCdnIps(cs, ip);
      KeysDiffer(d.connectHost, d.host, d.path, ip, b.host, b.path);
    }
  }

  function Sample(ip: string, host: string, uuid: string): Config {
    VlessTls(ip, 443, host, host, "/", uuid, "ws", "", "", "", "")
  }

  /** Two backends that differ in the user only, `u` and `v`: an address that has one never gets the other. */
  lemma {:induction false} SharedHost(configs: seq<Config>, ip: string, ip2: string, host: string, host2: string,
                                      u: string, v: string)
    requires ip != ip2 && host != host2 && u != v
    requires configs == [Sample(ip, host, u), Sample(ip, host2, u), Sample(ip2, host, v), Sample(ip2, host2, u)]
    ensures ip in CdnIps(Cdn(configs)) && BackendOf(configs[2]) in Backends(Cdn(configs))
    ensures !Paired(Cdn(configs + Generated(Cdn(configs))), ip, BackendOf(configs[2]))
  {
    var b := BackendOf(configs[2]);
    NotPaired(configs, ip, b);
    TwoHosts(configs, configs[0], configs[1]);
    TwoHosts(configs, configs[2], configs[3]);
    InBackends(Cdn(configs), b);
    assert configs[2] in Cdn(configs);
    assert KeyOf(configs[0]) in Existing(Cdn(configs));
    Coverage(configs, ip, b);
  }

  lemma {:induction false} NotPaired(configs: seq<Config>, ip: string, b: Backend)
    requires forall k | 0 <= k < |configs| && IsCdn(configs[k]) ::
             configs[k].connectHost != ip || configs[k].uuid != b.uuid
    ensures !Paired(Cdn(configs), ip, b)
  {
  }

  lemma {:induction false} TwoHosts(configs: seq<Config>, a: Config, b: Config)
    requires a in configs && b in configs && IsCdn(a) && IsCdn(b) && a.connectHost == b.connectHost && a.host != b.host
    ensures a.connectHost in CdnIps(Cdn(configs))
  {
    InCdnIps(Cdn(configs), a.connectHost);
  }

  // ---- The generator ----

  /** The inner loop of generate: one backend at every address. */
  method AddRow(generated: seq<Config>, b: Backend, cdnIps: seq<string>, existing: set<string>) returns (r: seq<Config>)
    ensures r == generated + Row(b, cdnIps, existing)
  {
    r := generated;
    for j := 0 to |cdnIps|
      invariant r == generated + Row(b, cdnIps[..j], existing)
    {
      RowNext(b, cdnIps, j, existing);
      if Key(cdnIps[j], b.host, b.path) !in existing {
        r := r + [Make(cdnIps[j], b)];
      }
    }
    assert cdnIps[..|cdnIps|] == cdnIps;
  }

  lemma {:induction false} RowNext(b: Backend, ips: seq<string>, j: nat, existing: set<string>)
    requires j < |ips|
    ensures Row(b, ips[..j + 1], existing) == Row(b, ips[..j], existing) +
            if Key(ips[j], b.host, b.path) !in existing then [Make(ips[j], b)] else []
  {
    assert ips[..j + 1][..j] == ips[..j];
  }

  lemma {:induction false} GridNext(bs: seq<Backend>, i: nat, ips: seq<string>, existing: set<string>)
    requires i < |bs|
    ensures Grid(bs[..i + 1], ips, existing) == Grid(bs[..i], ips, existing) + Row(bs[i], ips, existing)
  {
    assert bs[..i + 1][..i] == bs[..i];
  }

  /** generate */
  method Generate(configs: seq<Config>) returns (generated: seq<Config>)
    ensures generated == Generated(Cdn(configs))
  {
    var cdnConfigs := Cdn(configs);
    if |cdnConfigs| < 2 {
      return [];
    }
    var cdnIps := CdnIps(cdnConfigs);
    if cdnIps == [] {
      GridNone(Backends(cdnConfigs), Existing(cdnConfigs));
      return [];
    }
    generated := FillGrid(Backends(cdnConfigs), cdnIps, Existing(cdnConfigs));
  }

  /** The outer loop of generate. */
  method FillGrid(backends: seq<Backend>, cdnIps: seq<string>, existing: set<string>) returns (generated: seq<Config>)
    ensures generated == Grid(backends, cdnIps, existing)
  {
    generated := [];
    for i := 0 to |backends|
      invariant generated == Grid(backends[..i], cdnIps, existing)
    {
      GridNext(backends, i, cdnIps, existing);
      generated := AddRow(generated, backends[i], cdnIps, existing);
    }
    assert backends[..|backends|] == backends;
  }

  lemma {:induction false} GridNone(bs: seq<Backend>, existing: set<string>)
    ensures Grid(bs, [], existing) == []
    decreases |bs|
  {
    if bs != [] {
      GridNone(bs[..|bs| - 1], existing);
    }
  }
}
