/** What the grid generator adds to a list of configurations, said of the list: exactly the missing pairs of a CDN
    address and a backend, field by field. */
module GridExactly {
  import opened Text
  import opened VlessUri
  import opened ConfigGrid

  /** A configuration that goes through a CDN. */
  predicate OnCdn(c: Config) {
    c.VlessTls? && (c.network == "ws" || c.network == "xhttp")
  }

  /** Two configurations use the address for different hosts. */
  predicate Shared(configs: seq<Config>, ip: string) {
    exists a, b | a in configs && b in configs ::
      OnCdn(a) && OnCdn(b) && a.connectHost == ip && b.connectHost == ip && a.host != b.host
  }

  /** What comes before the first dot. */
  predicate IsFirst(part: string, host: string) {
    part <= host && '.' !in part && (|part| == |host| || host[|part|] == '.')
  }

  /** What comes after the last dot. */
  predicate IsLast(part: string, ip: string) {
    var y := |ip| - |part|;
    y >= 0 && ip[y..] == part && '.' !in part && (y == 0 || ip[y - 1] == '.')
  }

  /** The first label of the host, a dash, and the last label of the address. */
  ghost predicate IsName(name: string, host: string, ip: string) {
    exists x, y :: IsFirst(x, host) && IsLast(y, ip) && name == x + "-" + y
  }

  /** `g` is `c` at another address. */
  ghost predicate Moved(g: Config, c: Config, ip: string) {
    && c.VlessTls? && g.VlessTls? && IsName(g.name, c.host, ip)
    && g == VlessTls(ip, c.port, c.host, c.host, c.path, c.uuid, c.network, c.fingerprint, c.alpn, c.mode, g.name)
  }

  /** No configuration has the address, host and path; the three are compared as one text. */
  predicate Absent(configs: seq<Config>, g: Config)
    requires g.VlessTls?
  {
    forall c | c in configs && OnCdn(c) ::
      c.connectHost + "|" + c.host + "|" + c.path != g.connectHost + "|" + g.host + "|" + g.path
  }

  /** A new pair of a shared address and a backend at one. */
  ghost predicate Missing(configs: seq<Config>, g: Config) {
    && g.VlessTls? && Shared(configs, g.connectHost) && Absent(configs, g)
    && exists c | c in configs :: OnCdn(c) && Shared(configs, c.connectHost) && Moved(g, c, g.connectHost)
  }

  lemma {:induction false} FirstIs(part: string, host: string)
    ensures IsFirst(part, host) <==> part == Before(host, '.')
  {
    var i := Find(host, '.');
    if i < 0 {
      assert Before(host, '.') == host;
    }
    if IsFirst(part, host) && |part| < |host| {
      assert host == part + ['.'] + host[|part| + 1..];
      CutFirstIn(part, '.', host[|part| + 1..]);
    }
  }

  lemma {:induction false} LastIs(part: string, ip: string)
    ensures IsLast(part, ip) <==> part == AfterLast(ip, '.')
  {
    var y := |ip| - |part|;
    if IsLast(part, ip) && y > 0 {
      assert ip == ip[..y - 1] + ['.'] + part;
      CutLastIn(ip[..y - 1], '.', part);
    }
  }

  lemma {:induction false} MakesName(host: string, ip: string)
    ensures IsName(Before(host, '.') + "-" + AfterLast(ip, '.'), host, ip)
  {
    FirstIs(Before(host, '.'), host);
    LastIs(AfterLast(ip, '.'), ip);
  }

  lemma {:induction false} NameIs(name: string, host: string, ip: string)
    requires IsName(name, host, ip)
    ensures name == Before(host, '.') + "-" + AfterLast(ip, '.')
  {
    var x, y :| IsFirst(x, host) && IsLast(y, ip) && name == x + "-" + y;
    FirstIs(x, host);
    LastIs(y, ip);
  }

  lemma {:induction false} SharedIs(configs: seq<Config>, ip: string)
    ensures ip in CdnIps(Cdn(configs)) <==> Shared(configs, ip)
  {
    var cs := Cdn(configs);
    InCdnIps(cs, ip);
    if HasTwoHosts(cs, ip) {
      var a, b :| a in cs && b in cs && a.connectHost == ip && b.connectHost == ip && a.host != b.host;
      assert a in configs && b in configs;
    }
    if Shared(configs, ip) {
      var a, b :| a in configs && b in configs && OnCdn(a) && OnCdn(b) && a.connectHost == ip && b.connectHost == ip &&
        a.host != b.host;
      assert a in cs && b in cs;
    }
  }

  lemma {:induction false} AbsentIs(configs: seq<Config>, g: Config)
    requires g.VlessTls?
    ensures Key(g.connectHost, g.host, g.path) !in Existing(Cdn(configs)) <==> Absent(configs, g)
  {
    if c :| c in configs && OnCdn(c) && KeyOf(c) == Key(g.connectHost, g.host, g.path) {
      assert c in Cdn(configs);
    }
  }

  lemma {:induction false} OnlyMissing(configs: seq<Config>, g: Config)
    requires g in Generated(Cdn(configs))
    ensures Missing(configs, g)
  {
    var cs := Cdn(configs);
    GeneratedIs(cs, g);
    SharedIs(configs, g.connectHost);
    AbsentIs(configs, g);
    InBackends(cs, BackendOf(g));
    var c :| c in cs && c.connectHost in CdnIps(cs) && BackendOf(c) == BackendOf(g);
    SharedIs(configs, c.connectHost);
    MakesName(c.host, g.connectHost);
    assert c in configs && Moved(g, c, g.connectHost);
  }

  lemma {:induction false} AllMissing(configs: seq<Config>, g: Config)
    requires Missing(configs, g)
    ensures g in Generated(Cdn(configs))
  {
    var cs, ip := Cdn(configs), g.connectHost;
    var c :| c in configs && OnCdn(c) && Shared(configs, c.connectHost) && Moved(g, c, ip);
    SharedIs(configs, ip);
    SharedIs(configs, c.connectHost);
    AbsentIs(configs, g);
    NameIs(g.name, c.host, ip);
    assert c in cs && BackendOf(g) == BackendOf(c);
    InBackends(cs, BackendOf(c));
    SomeIp(cs, ip);
    assert g == Make(ip, BackendOf(c));
    InGrid(Backends(cs), CdnIps(cs), Existing(cs), g);
  }

  /** Exactly the missing pairs are generated. */
  lemma {:induction false} GeneratedExactly(configs: seq<Config>, g: Config)
    ensures g in Generated(Cdn(configs)) <==> Missing(configs, g)
  {
    if g in Generated(Cdn(configs)) {
      OnlyMissing(configs, g);
    }
    if Missing(configs, g) {
      AllMissing(configs, g);
    }
  }
}
