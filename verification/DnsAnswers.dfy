/** What an address in a DNS reply leads to: the name that was asked for, as long as the name is live. */
module DnsAnswers {
  import opened Options
  import opened Ordering
  import opened DnsMessages
  import opened DnsServer
  import opened DnsHandler
  import opened MappedDns
  import R = Recency

  function Names(found: seq<Found>): (names: seq<Key>)
    ensures |names| == |found|
  {
    if found == [] then [] else Names(found[..|found| - 1]) + [found[|found| - 1].name]
  }

  lemma {:induction false} FindsAppend(a: seq<Found>, b: seq<Found>)
    ensures Finds(a + b) == Finds(a) + Finds(b)
    decreases |b|
  {
    if b == [] {
      assert a + b == a;
    } else {
      var n := |b| - 1;
      assert (a + b)[..|a + b| - 1] == a + b[..n];
      FindsAppend(a, b[..n]);
    }
  }

  /** Finding names touches exactly them. */
  lemma {:induction false} FindsTrace(max: nat, c: R.Cache<Key>, found: seq<Found>)
    requires max > 0 && R.Wellformed(max, c)
    ensures R.RunFrom(max, c, Finds(found)) == (After(max, c, found), Names(found))
    decreases |found|
  {
    if found != [] {
      var n := |found| - 1;
      FindsTrace(max, c, found[..n]);
      var ops := Finds(found);
      assert ops[..n] == Finds(found[..n]);
      R.RunNext(max, c, ops, After(max, c, found[..n]), Names(found[..n]));
    }
  }

  lemma {:induction false} AfterAppend(max: nat, c: R.Cache<Key>, a: seq<Found>, b: seq<Found>)
    requires max > 0 && R.Wellformed(max, c)
    ensures After(max, c, a + b) == After(max, After(max, c, a), b)
  {
    FindsAppend(a, b);
    R.RunAppend(max, c, Finds(a), Finds(b));
  }

  /** Fewer than `max` other names are used after the k-th find and by what comes later. */
  ghost predicate FewOthers(max: nat, c: R.Cache<Key>, found: seq<Found>, k: nat, later: seq<R.Op<Key>>)
    requires max > 0 && R.Wellformed(max, c) && k < |found|
  {
    var used := Names(found[k + 1..]) + R.RunFrom(max, After(max, c, found), later).1;
    |R.NamesOf(used) - {found[k].name}| < max
  }

  /** What follows the k-th find. */
  ghost function Since(found: seq<Found>, k: nat, later: seq<R.Op<Key>>): seq<R.Op<Key>>
    requires k < |found|
  {
    Finds(found[k + 1..]) + later
  }

  lemma {:induction false} SinceRuns(max: nat, c: R.Cache<Key>, found: seq<Found>, k: nat, later: seq<R.Op<Key>>)
    requires max > 0 && R.Wellformed(max, c) && k < |found|
    ensures var (end, t) := R.RunFrom(max, After(max, c, found), later);
            R.RunFrom(max, After(max, c, found[..k + 1]), Since(found, k, later)) == (end, Names(found[k + 1..]) + t)
  {
    var c' := After(max, c, found[..k + 1]);
    assert found == found[..k + 1] + found[k + 1..];
    AfterAppend(max, c, found[..k + 1], found[k + 1..]);
    FindsTrace(max, c', found[k + 1..]);
    R.RunAppend(max, c', Finds(found[k + 1..]), later);
  }

  lemma {:induction false} AfterUpTo(max: nat, c: R.Cache<Key>, found: seq<Found>, k: nat)
    requires max > 0 && R.Wellformed(max, c) && k < |found|
    ensures After(max, c, found[..k + 1]) == R.Step(max, After(max, c, found[..k]), R.Find(found[k].name)).0
  {
    assert found[..k + 1] == found[..k] + [found[k]];
    AfterOne(max, c, found[..k], found[k]);
  }

  /** The address of the k-th answer leads back to the name that was asked for. */
  lemma {:induction false} AnswerLooksUp(max: nat, net: nat, before: seq<R.Op<Key>>, found: seq<Found>, ips: seq<nat>,
                                         k: nat, later: seq<R.Op<Key>>)
    requires max > 0 && k < |found| && Given(max, net, R.Run(max, before).0, found, ips)
    requires FewOthers(max, R.Run(max, before).0, found, k, later)
    ensures var c := After(max, R.Run(max, before).0, found);
            net <= ips[k] < net + max &&
            R.Step(max, R.RunFrom(max, c, later).0, R.Lookup(ips[k] - net)).1 == Some(found[k].name)
  {
    var c, n := R.Run(max, before).0, found[k].name;
    var earlier := before + Finds(found[..k]);
    var ops := Since(found, k, later);
    R.RunAppend(max, R.Cache([], map[]), before, Finds(found[..k]));
    AfterUpTo(max, c, found, k);
    SinceRuns(max, c, found, k, later);
    R.StaysWhileFew(max, earlier, n, ops);
    R.LookupFindsName(max, After(max, c, found[..k]), n, ops);
    assert GivenAt(max, net, c, found, ips, k);
  }

  // ---- Exactly when the names of one request stay ----

  lemma {:induction false} NotLive(max: nat, c: R.Cache<Key>, i: nat, n: Key)
    requires max > 0 && R.Wellformed(max, c) && n !in c.live
    ensures R.Step(max, c, R.Lookup(i)).1 != Some(n)
  {}

  /** The address of the last question for a name leads to the name right after the reply exactly if fewer than
      `max` other names were asked for behind it in the request. */
  lemma {:induction false} AnswerExactly(max: nat, net: nat, before: seq<R.Op<Key>>, found: seq<Found>, ips: seq<nat>,
                                         k: nat)
    requires max > 0 && k < |found| && Given(max, net, R.Run(max, before).0, found, ips)
    requires found[k].name !in Names(found[k + 1..])
    ensures net <= ips[k] < net + max
    ensures R.Step(max, After(max, R.Run(max, before).0, found), R.Lookup(ips[k] - net)).1 == Some(found[k].name) <==>
            |R.NamesOf(Names(found[k + 1..]))| < max
  {
    var c, n, since := R.Run(max, before).0, found[k].name, Names(found[k + 1..]);
    var end := After(max, c, found);
    assert GivenAt(max, net, c, found, ips, k);
    RequestRuns(max, before, found, k);
    R.LivesUntilMaxOthers(max, before + Finds(found), R.Run(max, before).1 + Names(found[..k]), n, since);
    Counts(since);
    if |R.NamesOf(since)| < max {
      assert R.NamesOf(since) - {n} == R.NamesOf(since);
      assert FewOthers(max, c, found, k, []) by {
        assert since + [] == since;
      }
      AnswerLooksUp(max, net, before, found, ips, k, []);
    } else {
      NotLive(max, end, ips[k] - net, n);
    }
  }

  lemma {:induction false} Counts(since: seq<Key>)
    ensures |R.ByLastUse(since)| == |R.NamesOf(since)|
  {
    R.ByLastUseDistinct(since);
    R.ByLastUseNames(since);
    R.DistinctCount(R.ByLastUse(since));
    assert R.NamesOf(R.ByLastUse(since)) == R.NamesOf(since);
  }

  lemma {:induction false} NamesAppend(a: seq<Found>, b: seq<Found>)
    ensures Names(a + b) == Names(a) + Names(b)
    decreases |b|
  {
    if b == [] {
      assert a + b == a;
    } else {
      var n := |b| - 1;
      assert (a + b)[..|a + b| - 1] == a + b[..n];
      NamesAppend(a, b[..n]);
    }
  }

  lemma {:induction false} NamesAround(found: seq<Found>, k: nat)
    requires k < |found|
    ensures Names(found) == Names(found[..k]) + [found[k].name] + Names(found[k + 1..])
  {
    var a, b := found[..k + 1], found[k + 1..];
    assert found == a + b && a[..k] == found[..k];
    NamesAppend(a, b);
  }

  /** The run of the cache up to and including a request. */
  lemma {:induction false} RequestRuns(max: nat, before: seq<R.Op<Key>>, found: seq<Found>, k: nat)
    requires max > 0 && k < |found|
    ensures var (c, t) := R.Run(max, before);
            R.Run(max, before + Finds(found)) ==
              (After(max, c, found), t + Names(found[..k]) + [found[k].name] + Names(found[k + 1..]))
  {
    var (c, t) := R.Run(max, before);
    R.RunAppend(max, R.Cache([], map[]), before, Finds(found));
    FindsTrace(max, c, found);
    NamesAround(found, k);
    Regroup(t, Names(found[..k]), [found[k].name], Names(found[k + 1..]));
  }

  lemma {:induction false} Regroup<T>(a: seq<T>, b: seq<T>, c: seq<T>, d: seq<T>)
    ensures a + (b + c + d) == a + b + c + d
  {}

  // ---- From the bytes of a reply ----

  function Value32(b: Key): nat
    requires |b| == 4
  {
    b[0] as int * 0x100_0000 + b[1] as int * 0x1_0000 + b[2] as int * 256 + b[3] as int
  }

  lemma {:induction false} ValueOfBytes(n: nat)
    requires n < 0x1_0000_0000
    ensures Value32(Bytes32(n)) == n
  {
    var a := n / 0x100_0000;
    assert n / 0x1_0000 / 256 == a;
    assert n / 256 / 256 == n / 0x1_0000;
  }

  lemma {:induction false} SliceEnds<T>(a: seq<T>, b: seq<T>, i: nat, j: nat)
    requires i <= j <= |a|
    ensures (a + b)[i..j] == a[i..j] && (a + b)[|a|..|a| + |b|] == b
  {}

  lemma {:induction false} AnswersSplit(found: seq<Found>, ips: seq<nat>, n: nat) returns (first: Key, last: Key)
    requires |found| == |ips| == n + 1 && Small(ips)
    ensures Small(ips[..n]) && first == Answers(found[..n], ips[..n]) && |first| == 16 * n
    ensures last == Answer(found[n].at, ips[n]) && |last| == 16 && Answers(found, ips) == first + last
  {
    AnswersOne(found, ips, n);
    assert found[..n + 1] == found && ips[..n + 1] == ips;
    first, last := Answers(found[..n], ips[..n]), Answer(found[n].at, ips[n]);
  }

  lemma {:induction false} AnswersAt(found: seq<Found>, ips: seq<nat>, k: nat)
    requires |found| == |ips| && Small(ips) && k < |found|
    ensures Answers(found, ips)[16 * k..16 * k + 16] == Answer(found[k].at, ips[k])
    decreases |found|
  {
    var n := |found| - 1;
    var first, last := AnswersSplit(found, ips, n);
    if k < n {
      AnswersAt(found[..n], ips[..n], k);
      SliceEnds(first, last, 16 * k, 16 * k + 16);
    } else {
      SliceEnds(first, last, 0, 0);
    }
  }

  lemma {:induction false} Behind<T>(a: seq<T>, b: seq<T>, i: nat, j: nat)
    requires i <= j <= |b|
    ensures (a + b)[|a| + i..|a| + j] == b[i..j]
  {}

  /** The k-th answer in the reply. */
  lemma {:induction false} AnswerIn(b: Key, s: Scanned, ips: seq<nat>, reply: Key, k: nat, i: nat)
    requires |b| >= HEADER && IsReply(b, s, ips, reply) && k < |ips| && i == s.off + 16 * k
    ensures |reply| == s.off + 16 * |ips| && i + 16 <= |reply| && reply[i..i + 16] == Answer(s.found[k].at, ips[k])
  {
    var front, answers := ReplyHeader(b, |ips|) + b[HEADER..s.off], Answers(s.found, ips);
    AnswersAt(s.found, ips, k);
    Behind(front, answers, 16 * k, 16 * k + 16);
    assert |front| == s.off && reply == front + answers;
  }

  lemma {:induction false} AnswerAddress(s: Key, i: nat, at: nat, ip: nat)
    requires ip < 0x1_0000_0000 && i + 16 <= |s| && s[i..i + 16] == Answer(at, ip)
    ensures s[i + 12..i + 16] == Bytes32(ip)
  {
    assert s[i + 12..i + 16] == s[i..i + 16][12..16];
  }

  /** Where the address of the k-th answer is in the reply. */
  lemma {:induction false} AddressAt(b: Key, s: Scanned, ips: seq<nat>, reply: Key, k: nat, at: nat)
    requires |b| >= HEADER && IsReply(b, s, ips, reply) && k < |ips| && at == s.off + 16 * k + 12
    ensures |reply| == s.off + 16 * |ips| && at + 4 <= |reply| && reply[at..at + 4] == Bytes32(ips[k])
  {
    AnswerIn(b, s, ips, reply, k, at - 12);
    AnswerAddress(reply, at - 12, s.found[k].at, ips[k]);
  }

  /** How many answers there are. */
  lemma {:induction false} CountAt(b: Key, s: Scanned, ips: seq<nat>, reply: Key)
    requires |b| >= HEADER && IsReply(b, s, ips, reply)
    ensures |reply| >= HEADER && U16(reply[6], reply[7]) == |ips|
  {
    assert reply[6] == ReplyHeader(b, |ips|)[6] == Bytes16(|ips|)[0];
    assert reply[7] == ReplyHeader(b, |ips|)[7] == Bytes16(|ips|)[1];
  }

  /** A client takes the k-th address from a reply. */
  method TakeAddress(res: array<Byte>, r: nat, k: nat, ghost b: Key, ghost s: Scanned, ghost ips: seq<nat>)
    returns (ip: Option<nat>)
    requires r <= res.Length && |b| >= HEADER && IsReply(b, s, ips, res[..r])
    ensures ip == if k < |ips| then Some(ips[k]) else None
  {
    CountAt(b, s, ips, res[..r]);
    var count := U16(res[6], res[7]);
    if k >= count {
      return None;
    }
    var at := r - 16 * (count - k) + 12;
    AddressAt(b, s, ips, res[..r], k, at);
    ghost var bytes := res[..r][at..at + 4];
    assert bytes == res[at..at + 4];
    ValueOfBytes(ips[k]);
    ip := Some(Value32(res[at..at + 4]));
  }

  ghost function Before(max: nat, before: seq<R.Op<Key>>): (c: R.Cache<Key>)
    requires max > 0
    ensures R.Wellformed(max, c)
  {
    R.Run(max, before).0
  }

  method UseThenLookup(dns: MappedDns, ip: nat, uses: seq<Use>, ghost c: R.Cache<Key>) returns (name: Option<Key>)
    requires dns.Valid(c)
    modifies dns, dns.dict, dns.dict.tree, dns.dict.tree.repr, dns.list, dns.list.repr, dns.records
    ensures name == LookedUp(dns.max, dns.hosts, c, uses, ip)
  {
    dns.Run(uses, c);
    name := dns.Lookup(ip, R.RunFrom(dns.max, c, OpsOf(dns.hosts, uses)).0);
  }

  ghost function LookedUp(max: nat, hosts: nat, c: R.Cache<Key>, uses: seq<Use>, ip: nat): Option<Key>
    requires 0 < max < hosts && R.Wellformed(max, c)
  {
    R.Step(max, R.RunFrom(max, c, OpsOf(hosts, uses)).0, R.Lookup(ip % hosts)).1
  }

  lemma {:induction false} AnswerLookedUp(max: nat, net: nat, hosts: nat, before: seq<R.Op<Key>>, found: seq<Found>,
                                          ips: seq<nat>, k: nat, uses: seq<Use>)
    requires 0 < max < hosts && net % hosts == 0 && k < |found| && Given(max, net, Before(max, before), found, ips)
    ensures FewOthers(max, Before(max, before), found, k, OpsOf(hosts, uses)) ==>
              LookedUp(max, hosts, After(max, Before(max, before), found), uses, ips[k]) == Some(found[k].name)
  {
    var later := OpsOf(hosts, uses);
    if FewOthers(max, Before(max, before), found, k, later) {
      AnswerLooksUp(max, net, before, found, ips, k, later);
      HostOf(net, hosts, ips[k], ips[k] - net);
    }
  }

  /** A request is answered, the cache is used, and then an address of the reply is looked up: it leads to the name
      that was asked for, unless `max` other names were used meanwhile. */
  method AskThenLookup(dns: MappedDns, req: array<Byte>, qlen: nat, res: array<Byte>, slen: nat, k: nat,
                       uses: seq<Use>, ghost before: seq<R.Op<Key>>)
    returns (r: int, name: Option<Key>, ghost found: seq<Found>)
    requires dns.max > 0 && dns.Valid(Before(dns.max, before)) && dns.net + dns.max <= 0x1_0000_0000
    requires HEADER <= qlen <= req.Length && slen <= res.Length && req != res
    modifies req, res, dns, dns.dict, dns.dict.tree, dns.dict.tree.repr, dns.list, dns.list.repr, dns.records
    ensures r >= 0 ==> found == ScanRequest(old(req[..qlen])).found
    ensures r >= 0 && k < |found| &&
            FewOthers(dns.max, Before(dns.max, before), found, k, OpsOf(dns.hosts, uses)) ==>
              name == Some(found[k].name)
  {
    ghost var b, c := req[..qlen], Before(dns.max, before);
    ghost var ips;
    r, found, ips := Handle(dns, req, qlen, res, slen, c);
    name := None;
    if r >= 0 {
      var ip := TakeAddress(res, r, k, b, ScanRequest(b), ips);
      if ip.Some? {
        name := UseThenLookup(dns, ip.value, uses, After(dns.max, c, found));
        AnswerLookedUp(dns.max, dns.net, dns.hosts, before, found, ips, k, uses);
      }
    }
  }

  // ---- Well-formed requests ----

  /** A well-formed request is read as it is. */
  lemma {:induction false} ProperRequest(h: Key, qs: seq<Question>, c: Key)
    requires |h| == HEADER && AllProper(qs) && U16(h[4], h[5]) == |qs|
    ensures ScanRequest(h + Questions(qs) + c) == Scanned(Wanted(qs, HEADER), true, HEADER + |Questions(qs)|)
  {
    var b := h + Questions(qs) + c;
    assert b[HEADER..] == Questions(qs) + c && b[4] == h[4] && b[5] == h[5];
    ScanProper(qs, c, HEADER, |qs|, HEADER + |Questions(qs)|);
  }
}
