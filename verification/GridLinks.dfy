/** Generated configurations that share a link: if one of them can be read back from it, so can the others. */
module GridLinks {
  import opened Numerals
  import opened Text
  import opened VlessUri
  import opened ConfigGrid

  /** What the fields of a generated configuration must be for its link to say the same. */
  predicate Printable(c: Config) {
    c.VlessTls? && c.path != "" && (c.host != "" || c.connectHost == "") && '&' !in c.host && '#' !in c.name
  }

  /** What a configuration is like that was generated from parsed links. */
  predicate Gridlike(c: Config) {
    && IsCdn(c) && c == Make(c.connectHost, BackendOf(c)) && INT_MIN <= c.port <= INT_MAX
    && '?' !in c.uuid && '?' !in c.connectHost && '@' !in c.uuid
    && '&' !in c.path && '&' !in c.fingerprint && '&' !in c.alpn && '&' !in c.mode
  }

  lemma {:induction false} ExactPrintable(c: Config)
    requires Gridlike(c) && !HasCode(c.path)
    ensures TlsExact(c) <==> Printable(c)
  {
    assert c.sni == c.host && '&' !in c.network;
  }

  function Authority(c: Config): string
    requires c.VlessTls?
  {
    c.uuid + "@" + (c.connectHost + ":" + PrintInt(c.port))
  }

  /** What stands between the question mark of a link and the dash in the name. */
  function Body(c: Config): string
    requires c.VlessTls?
  {
    Join(PiecesOf(TlsParams(c)), '&') + ("#" + Before(c.host, '.'))
  }

  // ---- From links to bodies ----

  lemma {:induction false} Regroup(a: string, b: string, c: string, d: string)
    ensures a + "?" + b + "#" + (c + "-" + d) == a + "?" + ((b + ("#" + c)) + ("-" + d))
  {}

  lemma {:induction false} LinkCut(c: Config)
    requires Gridlike(c)
    ensures ToUri(c) == SCHEME + (Authority(c) + "?" + (Body(c) + ("-" + AfterLast(c.connectHost, '.'))))
    ensures CutFirst(ToUri(c)[|SCHEME|..], '?') == Cut(true, Authority(c),
            Body(c) + ("-" + AfterLast(c.connectHost, '.')))
  {
    var tail := AfterLast(c.connectHost, '.');
    Regroup(Authority(c), Join(PiecesOf(TlsParams(c)), '&'), Before(c.host, '.'), tail);
    NoMark(c.uuid, c.connectHost, c.port);
    CutFirstIn(Authority(c), '?', Body(c) + ("-" + tail));
    var link := Authority(c) + "?" + (Body(c) + ("-" + tail));
    assert (SCHEME + link)[|SCHEME|..] == link;
  }

  lemma {:induction false} SameFront(a: string, b: string, tail: string)
    requires a + tail == b + tail
    ensures a == b
  {
    assert |a| == |b|;
    assert (a + tail)[..|a|] == a && (b + tail)[..|b|] == b;
  }

  lemma {:induction false} LinkBody(a: Config, b: Config)
    requires Gridlike(a) && Gridlike(b) && ToUri(a) == ToUri(b)
    ensures a.connectHost == b.connectHost && Body(a) == Body(b)
  {
    LinkCut(a);
    LinkCut(b);
    AuthorityRead(a.uuid, a.connectHost, a.port);
    AuthorityRead(b.uuid, b.connectHost, b.port);
    SameFront(Body(a), Body(b), "-" + AfterLast(a.connectHost, '.'));
  }

  // ---- Bodies of clean configurations ----

  /** The last value goes on with `w`. */
  function Extended(ps: seq<Param>, w: string): seq<Param>
    requires ps != []
  {
    var n := |ps| - 1;
    ps[..n] + [Param(ps[n].key, ps[n].value + w)]
  }

  lemma {:induction false} JoinExtended(ps: seq<Param>, w: string)
    requires ps != []
    ensures Join(PiecesOf(Extended(ps, w)), '&') == Join(PiecesOf(ps), '&') + w
    decreases |ps|
  {
    if |ps| == 1 {
      assert Piece(Extended(ps, w)[0]) == Piece(ps[0]) + w;
    } else {
      JoinExtended(ps[1..], w);
      JoinCons(ps);
      assert Extended(ps, w)[1..] == Extended(ps[1..], w);
      JoinCons(Extended(ps, w));
    }
  }

  lemma {:induction false} JoinCons(ps: seq<Param>)
    requires |ps| > 1
    ensures Join(PiecesOf(ps), '&') == Piece(ps[0]) + "&" + Join(PiecesOf(ps[1..]), '&')
  {
    assert PiecesOf(ps)[1..] == PiecesOf(ps[1..]);
  }

  lemma {:induction false} ExtendedClean(ps: seq<Param>, w: string)
    requires ps != [] && CleanParams(ps) && '&' !in w
    ensures Free(PiecesOf(Extended(ps, w)), '&')
  {
    var n := |ps| - 1;
    assert Piece(Extended(ps, w)[n]) == Piece(ps[n]) + w;
  }

  lemma {:induction false} CleanBody(c: Config) returns (ps: seq<Param>)
    requires c.VlessTls? && TlsClean(c)
    ensures TlsParams(c) != [] && ps == Extended(TlsParams(c), "#" + Before(c.host, '.'))
    ensures Split(Body(c), '&') == PiecesOf(ps) && ProperKeys(ps)
  {
    var w := "#" + Before(c.host, '.');
    TlsKeys(c);
    TlsCleanParams(c);
    ps := Extended(TlsParams(c), w);
    ExtendedClean(TlsParams(c), w);
    JoinExtended(TlsParams(c), w);
    SplitJoin(PiecesOf(ps), '&');
  }

  lemma {:induction false} LookupExtended(ps: seq<Param>, w: string, key: string)
    requires ps != []
    ensures Lookup(Extended(ps, w), key).Some? == Lookup(ps, key).Some?
    ensures ps[|ps| - 1].key != key ==> Lookup(Extended(ps, w), key) == Lookup(ps, key)
  {
    assert Extended(ps, w)[..|ps| - 1] == ps[..|ps| - 1];
  }

  // ---- Which parameters come late ----

  function Front(c: Config): seq<Param>
    requires c.VlessTls?
  {
    Three(Param("encryption", "none"), Param("security", "tls"), Param("type", c.network))
  }

  function Rest(c: Config): seq<Param>
    requires c.VlessTls?
  {
    Optional("path", Escape(c.path))
    + (Optional("fp", c.fingerprint) + (Optional("alpn", c.alpn) + Optional("mode", c.mode)))
  }

  lemma {:induction false} ParamsParts(c: Config)
    requires c.VlessTls?
    ensures TlsParams(c) == (Front(c) + Optional("host", c.host) + Optional("sni", c.sni)) + Rest(c)
  {
    var a, b := Optional("host", c.host), Optional("sni", c.sni);
    assert Front(c) + (a + (b + Rest(c))) == (Front(c) + a + b) + Rest(c);
  }

  lemma {:induction false} RestKeys(c: Config, p: Param)
    requires c.VlessTls? && p in Rest(c)
    ensures p.key != "" && p.key[0] != 's' && p.key[0] != 'h'
  {}

  /** No parameter from the sixth on starts like the server name, and with a path the last one is no host. */
  lemma {:induction false} LateKeys(c: Config)
    requires c.VlessTls?
    ensures forall k | 5 <= k < |TlsParams(c)| :: TlsParams(c)[k].key != "" && TlsParams(c)[k].key[0] != 's'
    ensures c.path != "" ==> TlsParams(c) != [] && TlsParams(c)[|TlsParams(c)| - 1].key != "host"
  {
    ParamsParts(c);
    var ps, head := TlsParams(c), Front(c) + Optional("host", c.host) + Optional("sni", c.sni);
    forall k | |head| <= k < |ps| ensures ps[k].key != "" && ps[k].key[0] != 's' && ps[k].key[0] != 'h' {
      RestKeys(c, Rest(c)[k - |head|]);
    }
    if c.path != "" {
      EscapeEmpty(c.path);
      assert Rest(c) != [];
    }
  }

  lemma {:induction false} LatePieces(c: Config, k: nat)
    requires c.VlessTls? && TlsClean(c) && 5 <= k < |Split(Body(c), '&')|
    ensures Split(Body(c), '&')[k] != "" && Split(Body(c), '&')[k][0] != 's'
  {
    var ps := CleanBody(c);
    LateKeys(c);
    PieceStarts(ps[k]);
  }

  lemma {:induction false} PieceStarts(p: Param)
    requires p.key != ""
    ensures Piece(p) != "" && Piece(p)[0] == p.key[0]
  {}

  // ---- A separator in the host ----

  lemma {:induction false} JoinAppend(a: seq<string>, b: seq<string>, c: char)
    requires a != [] && b != []
    ensures Join(a + b, c) == Join(a, c) + [c] + Join(b, c)
    decreases |a|
  {
    assert (a + b)[1..] == a[1..] + b;
    if |a| > 1 {
      JoinAppend(a[1..], b, c);
    }
  }

  lemma {:induction false} SplitLong(parts: seq<string>, c: char)
    requires parts != []
    ensures |Split(Join(parts, c), c)| >= |parts|
    decreases |parts|
  {
    if |parts| > 1 {
      SplitAppend(parts[0], c, Join(parts[1..], c));
      SplitLong(parts[1..], c);
    }
  }

  lemma {:induction false} SplitTwo(s: string, c: char)
    requires c in s
    ensures |Split(s, c)| >= 2
  {}

  lemma {:induction false} PiecesAppend(a: seq<Param>, b: seq<Param>)
    ensures PiecesOf(a + b) == PiecesOf(a) + PiecesOf(b)
  {}

  /** With a separator in the host there are more than four pieces before the server name. */
  lemma {:induction false} HostPieces(c: Config)
    requires c.VlessTls? && '&' in c.host
    ensures |Split(Join(PiecesOf(Front(c) + [Param("host", c.host)]), '&'), '&')| >= 5
  {
    var p := Param("host", c.host);
    PiecesAppend(Front(c), [p]);
    JoinAppend(PiecesOf(Front(c)), PiecesOf([p]), '&');
    SplitAppend(Join(PiecesOf(Front(c)), '&'), '&', Piece(p));
    SplitLong(PiecesOf(Front(c)), '&');
    assert '&' in "host=" + c.host;
    SplitTwo(Piece(p), '&');
  }

  lemma {:induction false} JoinStarts(p: Param, rest: seq<Param>) returns (more: string)
    ensures Join(PiecesOf([p] + rest), '&') == p.key + "=" + more
  {
    if rest == [] {
      more := p.value;
      assert [p] + rest == [p];
    } else {
      more := p.value + "&" + Join(PiecesOf(rest), '&');
      assert ([p] + rest)[1..] == rest;
      JoinCons([p] + rest);
    }
  }

  lemma {:induction false} SniParts(c: Config)
    requires c.VlessTls? && c.sni == c.host != ""
    ensures TlsParams(c) == (Front(c) + [Param("host", c.host)]) + ([Param("sni", c.sni)] + Rest(c))
  {
    ParamsParts(c);
    var front, p := Front(c) + [Param("host", c.host)], [Param("sni", c.sni)];
    assert (front + p) + Rest(c) == front + (p + Rest(c));
  }

  lemma {:induction false} JoinBoth(front: seq<Param>, back: seq<Param>, w: string)
    requires front != [] && back != []
    ensures Join(PiecesOf(front + back), '&') + w == Join(PiecesOf(front), '&') + "&" + (Join(PiecesOf(back), '&') + w)
  {
    PiecesAppend(front, back);
    JoinAppend(PiecesOf(front), PiecesOf(back), '&');
  }

  /** The server name starts a piece after everything up to the host. */
  lemma {:induction false} SniPiece(a: string, more: string)
    ensures var s := a + "&" + ("sni=" + more); var k := |Split(a, '&')|;
      k < |Split(s, '&')| && Split(s, '&')[k] != "" && Split(s, '&')[k][0] == 's'
  {
    var b := "sni=" + more;
    SplitAppend(a, '&', b);
    SplitFront(b, '&');
    CutLater("sni=", more, '&');
  }

  lemma {:induction false} SniLater(c: Config) returns (k: nat)
    requires Gridlike(c) && '&' in c.host
    ensures 5 <= k < |Split(Body(c), '&')| && Split(Body(c), '&')[k] != "" && Split(Body(c), '&')[k][0] == 's'
  {
    var w, front, back := "#" + Before(c.host, '.'), Front(c) + [Param("host", c.host)],
        [Param("sni", c.sni)] + Rest(c);
    SniParts(c);
    JoinBoth(front, back, w);
    var more := JoinStarts(Param("sni", c.sni), Rest(c));
    assert "sni" + "=" + more + w == "sni=" + (more + w);
    HostPieces(c);
    SniPiece(Join(PiecesOf(front), '&'), more + w);
    k := |Split(Join(PiecesOf(front), '&'), '&')|;
  }

  // ---- The result ----

  lemma {:induction false} SameClean(a: Config, b: Config)
    requires Gridlike(a) && Gridlike(b) && Body(a) == Body(b) && TlsClean(a) && TlsClean(b) && a.path != ""
    ensures b.path != "" && a.host == b.host
  {
    var pa := CleanBody(a);
    var pb := CleanBody(b);
    SameParam(a, b, pa, pb, "path");
    SameParam(a, b, pa, pb, "host");
    LookupTls(a, "path");
    LookupTls(b, "path");
    EscapeEmpty(a.path);
    EscapeEmpty(b.path);
    LateKeys(a);
    LateKeys(b);
    LookupTls(a, "host");
    LookupTls(b, "host");
  }

  lemma {:induction false} SameParam(a: Config, b: Config, pa: seq<Param>, pb: seq<Param>, key: string)
    requires a.VlessTls? && b.VlessTls? && TlsParams(a) != [] && TlsParams(b) != []
    requires pa == Extended(TlsParams(a), "#" + Before(a.host, '.')) &&
             pb == Extended(TlsParams(b), "#" + Before(b.host, '.'))
    requires ProperKeys(pa) && ProperKeys(pb) && PiecesOf(pa) == PiecesOf(pb)
    ensures Lookup(TlsParams(a), key).Some? == Lookup(TlsParams(b), key).Some?
    ensures TlsParams(a)[|TlsParams(a)| - 1].key != key && TlsParams(b)[|TlsParams(b)| - 1].key != key ==>
              Lookup(TlsParams(a), key) == Lookup(TlsParams(b), key)
  {
    QueryLookup(pa, key);
    QueryLookup(pb, key);
    LookupExtended(TlsParams(a), "#" + Before(a.host, '.'), key);
    LookupExtended(TlsParams(b), "#" + Before(b.host, '.'), key);
  }

  /** Two generated configurations with one link: if one is printable, so is the other. */
  lemma {:induction false} SameLink(a: Config, b: Config)
    requires Gridlike(a) && Gridlike(b) && ToUri(a) == ToUri(b) && Printable(a)
    ensures Printable(b)
  {
    LinkBody(a, b);
    if '&' in b.host {
      var k := SniLater(b);
      LatePieces(a, k);
    } else {
      SameClean(a, b);
    }
  }
}
