/** The mapped-DNS server: a request is answered from the cache, in place and byte by byte. */
module DnsServer {
  import opened Ordering
  import opened DnsMessages
  import opened CacheIndex
  import opened MappedDns
  import R = Recency

  // ---- Names in the request ----

  /** `done` is the dotted front of the name that `s` starts with, and `t` is what comes after it. */
  ghost predicate Dotting(s: Key, done: Key, t: Key) {
    && |done| <= |s| && t == s[|done|..]
    && (NameLen(s) < |s| <==> NameLen(t) < |t|)
    && (NameLen(t) < |t| ==> NameLen(s) == |done| + NameLen(t) && Dotted(s) == done + Dotted(t))
  }

  lemma {:induction false} DottedStep(t: Key, n: nat)
    requires t != [] && t[0] != 0 && n == 1 + t[0] as int < |t|
    ensures NameLen(t) == n + NameLen(t[n..]) && Dotted(t) == [DOT] + t[1..n] + Dotted(t[n..])
  {}

  lemma {:induction false} DottingStep(s: Key, done: Key, t: Key, n: nat)
    requires Dotting(s, done, t) && t != [] && t[0] != 0 && n == 1 + t[0] as int < |t|
    ensures Dotting(s, done + [DOT] + t[1..n], t[n..])
  {
    DottedStep(t, n);
    assert t[n..] == s[|done| + n..];
    var rest := Dotted(t[n..]);
    assert done + ([DOT] + t[1..n] + rest) == done + [DOT] + t[1..n] + rest;
  }

  lemma {:induction false} DotPut(pre: Key, done: Key, t: Key, post: Key, n: nat)
    requires 0 < n <= |t|
    ensures (pre + done + t + post)[|pre| + |done| := DOT] == pre + (done + [DOT] + t[1..n]) + t[n..] + post
  {}

  /** One label: its length byte becomes a dot, unless the label does not end. */
  method ReadLabel(req: array<Byte>, qlen: nat, poff: nat, ghost pre: Key, ghost done: Key, ghost t: Key,
                   ghost post: Key)
    returns (off: nat)
    requires poff == |pre| + |done| && qlen == poff + |t| && req[..] == pre + done + t + post && t != [] && t[0] != 0
    modifies req
    ensures off == poff + 1 + t[0] as int
    ensures off < qlen ==> var n := off - poff; req[..] == pre + (done + [DOT] + t[1..n]) + t[n..] + post
  {
    assert req[poff] == t[0];
    off := poff + 1 + req[poff] as int;
    if off < qlen {
      DotPut(pre, done, t, post, off - poff);
      ghost var was := req[..];
      req[poff] := DOT;
      assert req[..] == was[poff := DOT];
    }
  }

  lemma {:induction false} ByteAt(all: Key, pre: Key, done: Key, t: Key, post: Key, k: nat)
    requires all == pre + done + t + post && k == |pre| + |done| && t != []
    ensures k < |all| && all[k] == t[0]
  {}

  /** The front of a name has been dotted, up to `off`. */
  ghost predicate Halfway(all: Key, off: nat, pre: Key, s: Key, post: Key, done: Key, t: Key) {
    off == |pre| + |done| && Dotting(s, done, t) && all == pre + done + t + post
  }

  /** One round of the loop: the name ends here, does not end, or goes on after a label. */
  method NameRound(req: array<Byte>, qlen: nat, off: nat, ghost pre: Key, ghost s: Key, ghost post: Key,
                   ghost done: Key, ghost t: Key)
    returns (more: bool, ok: bool, next: nat, ghost done': Key, ghost t': Key)
    requires Halfway(req[..], off, pre, s, post, done, t) && qlen == |pre| + |s| && off < qlen
    modifies req
    ensures more ==> off < next < qlen && Halfway(req[..], next, pre, s, post, done', t')
    ensures !more ==> (ok <==> NameLen(s) < |s|)
    ensures !more && ok ==> next == |pre| + NameLen(s) && req[..] == pre + Dotted(s) + s[NameLen(s)..] + post
  {
    more, ok, next, done', t' := false, true, off, done, t;
    ByteAt(req[..], pre, done, t, post, off);
    if req[off] == 0 {
      DottingDone(s, done, t);
      return;
    }
    next := ReadLabel(req, qlen, off, pre, done, t, post);
    if next >= qlen {
      Unending(s, done, t);
      ok := false;
      return;
    }
    DottingStep(s, done, t, next - off);
    more, done', t' := true, done + [DOT] + t[1..next - off], t[next - off..];
  }

  /** The loop over the labels of a name: every length byte becomes a dot. */
  method ReadName(req: array<Byte>, qlen: nat, off: nat, ghost pre: Key, ghost s: Key, ghost post: Key)
    returns (ok: bool, end: nat)
    requires off == |pre| && qlen == |pre| + |s| && req[..] == pre + s + post
    modifies req
    ensures ok <==> NameLen(s) < |s|
    ensures ok ==> end == off + NameLen(s) && req[..] == pre + Dotted(s) + s[NameLen(s)..] + post
  {
    end := off;
    ghost var done: Key, t := [], s;
    var more := end < qlen;
    ok := false;
    assert pre + [] == pre;
    while more
      invariant more ==> end < qlen && Halfway(req[..], end, pre, s, post, done, t)
      invariant !more ==> (ok <==> NameLen(s) < |s|)
      invariant !more && ok ==> end == off + NameLen(s) && req[..] == pre + Dotted(s) + s[NameLen(s)..] + post
      decreases more, qlen - end
    {
      more, ok, end, done, t := NameRound(req, qlen, end, pre, s, post, done, t);
    }
  }

  lemma {:induction false} DottingDone(s: Key, done: Key, t: Key)
    requires Dotting(s, done, t) && t != [] && t[0] == 0
    ensures NameLen(s) == |done| < |s| && Dotted(s) == done && s[NameLen(s)..] == t
  {}

  lemma {:induction false} Unending(s: Key, done: Key, t: Key)
    requires Dotting(s, done, t) && t != [] && t[0] != 0 && 1 + t[0] as int >= |t|
    ensures NameLen(s) >= |s|
  {}

  method CString(req: array<Byte>, from: nat, qlen: nat) returns (name: Key)
    requires from <= qlen <= req.Length
    ensures name == UpToZero(req[from..qlen])
  {
    var k := from;
    while k < qlen && req[k] != 0
      invariant from <= k <= qlen && forall j | from <= j < k :: req[j] != 0
    {
      k := k + 1;
    }
    name := req[from..k];
    UpToZeroIs(req[from..qlen], k - from);
    assert req[from..qlen][..k - from] == req[from..k];
  }

  // ---- Questions ----

  /** The C string after the first byte of a dotted name is the name. */
  lemma {:induction false} CNameIs(s: Key, e: nat)
    requires NameLen(s) == e && e + 5 <= |s| && s[e + 1..e + 5] == A_IN
    ensures Dotted(s) + s[e..] != [] && UpToZero((Dotted(s) + s[e..])[1..]) == Name(s)
  {
    var d := Dotted(s);
    DottedLength(s);
    if d == [] {
      assert ([] + s)[1..] == s[1..];
      assert s[1] == s[e + 1..e + 5][0];
    } else {
      assert (d + s[e..])[1..] == d[1..] + s[e..];
      UpToZeroFront(d[1..], s[e..]);
    }
  }

  lemma {:induction false} AfterName(all: Key, pre: Key, s: Key, post: Key, e: nat)
    requires NameLen(s) == e && |Dotted(s)| == e && e + 5 <= |s| && all == pre + Dotted(s) + s[e..] + post
    ensures all[|pre| + e + 1..|pre| + e + 5] == s[e + 1..e + 5]
    ensures all[|pre|..|pre| + |s|] == Dotted(s) + s[e..]
    ensures all == (pre + Dotted(s) + s[e..e + 5]) + s[e + 5..] + post
  {
    assert s[e..] == s[e..e + 5] + s[e + 5..];
    assert s[e + 1..e + 5] == s[e..][1..5];
  }

  /** What is in the request from a question that asks for an address to its end. */
  ghost predicate Asks(s: Key, now: Key) {
    First(s).Front? && First(s).kind == A_IN && now == Dotted(s) + s[NameLen(s)..]
  }

  /** The place `off` in a request of `qlen` bytes is between `pre` and `s`. */
  ghost predicate Stands(now: Key, off: nat, qlen: nat, pre: Key, s: Key, post: Key) {
    off == |pre| && qlen == |pre| + |s| && now == pre + s + post
  }

  /** The request after its question at |pre| was read. */
  ghost predicate QuestionRead(s: Key, all: Key, pre': Key, post: Key, off: nat, next: nat, qlen: nat) {
    && First(s).Front? && off <= qlen <= |all| && off + 5 <= next <= |all|
    && next == off + First(s).len && Stands(all, next, qlen, pre', s[First(s).len..], post)
    && all[next - 4..next] == First(s).kind && all[off..qlen] == Dotted(s) + s[NameLen(s)..]
  }

  lemma {:induction false} NameReadSo(s: Key, all: Key, pre: Key, post: Key, off: nat, next: nat, qlen: nat)
    returns (pre': Key)
    requires off == |pre| && qlen == |pre| + |s| && next == off + NameLen(s) + 5 <= qlen
    requires all == pre + Dotted(s) + s[NameLen(s)..] + post
    ensures QuestionRead(s, all, pre', post, off, next, qlen)
  {
    var e := NameLen(s);
    DottedLength(s);
    AfterName(all, pre, s, post, e);
    pre' := pre + Dotted(s) + s[e..e + 5];
  }

  /** Reads one question: where it ends, and whether it is A/IN. */
  method ReadQuestion(req: array<Byte>, qlen: nat, off: nat, ghost pre: Key, ghost s: Key, ghost post: Key)
    returns (ok: bool, next: nat, wanted: bool, ghost pre': Key)
    requires Stands(req[..], off, qlen, pre, s, post)
    modifies req
    ensures ok <==> First(s).Front?
    ensures ok ==> QuestionRead(s, req[..], pre', post, off, next, qlen)
    ensures wanted <==> ok && First(s).kind == A_IN
  {
    wanted, pre', next := false, pre, off;
    var end;
    ok, end := ReadName(req, qlen, off, pre, s, post);
    if !ok {
      return;
    }
    if end + 4 >= qlen {
      ok := false;
      return;
    }
    next := end + 5;
    pre' := NameReadSo(s, req[..], pre, post, off, next, qlen);
    wanted := KindAt(req, next - 4, next);
  }

  /** Whether the type is A and the class is IN. */
  method KindAt(req: array<Byte>, at: nat, end: nat) returns (wanted: bool)
    requires at + 4 == end <= req.Length
    ensures wanted <==> req[..][at..end] == A_IN
  {
    wanted := U16(req[at], req[at + 1]) == 1 && U16(req[at + 2], req[at + 3]) == 1;
    ghost var k := req[..][at..end];
    assert k == [k[0], k[1], k[2], k[3]];
  }

  // ---- All questions ----

  /** The finds that the A/IN questions cause. */
  ghost function Finds(found: seq<Found>): (ops: seq<R.Op<Key>>)
    ensures |ops| == |found|
  {
    if found == [] then [] else Finds(found[..|found| - 1]) + [R.Find(found[|found| - 1].name)]
  }

  ghost function After(max: nat, c: R.Cache<Key>, found: seq<Found>): (c': R.Cache<Key>)
    requires max > 0 && R.Wellformed(max, c)
    ensures R.Wellformed(max, c')
  {
    R.RunFrom(max, c, Finds(found)).0
  }

  /** The addresses are those of the slots that the names got, one find after the other. */
  ghost predicate Given(max: nat, net: nat, c: R.Cache<Key>, found: seq<Found>, ips: seq<nat>)
    requires max > 0 && R.Wellformed(max, c)
  {
    |ips| == |found| && forall k | 0 <= k < |found| :: GivenAt(max, net, c, found, ips, k)
  }

  ghost predicate GivenAt(max: nat, net: nat, c: R.Cache<Key>, found: seq<Found>, ips: seq<nat>, k: nat)
    requires max > 0 && R.Wellformed(max, c) && k < |ips| == |found|
  {
    GivenOne(max, net, After(max, c, found[..k + 1]), found[k].name, ips[k])
  }

  ghost predicate GivenOne(max: nat, net: nat, c: R.Cache<Key>, name: Key, ip: nat) {
    net <= ip < net + max && SlotIs(c, name, ip - net)
  }

  ghost predicate InNet(max: nat, net: nat, ips: seq<nat>) {
    forall k | 0 <= k < |ips| :: net <= ips[k] < net + max
  }

  lemma {:induction false} AfterOne(max: nat, c: R.Cache<Key>, found: seq<Found>, f: Found)
    requires max > 0 && R.Wellformed(max, c)
    ensures After(max, c, found + [f]) == R.Step(max, After(max, c, found), R.Find(f.name)).0
  {
    var all := found + [f];
    assert all[..|all| - 1] == found;
    var ops := Finds(all);
    assert ops[..|ops| - 1] == Finds(found);
  }

  lemma {:induction false} GivenNext(max: nat, net: nat, c: R.Cache<Key>, found: seq<Found>, ips: seq<nat>, f: Found,
                                     ip: nat)
    requires max > 0 && R.Wellformed(max, c) && Given(max, net, c, found, ips) && InNet(max, net, ips)
    requires GivenOne(max, net, After(max, c, found + [f]), f.name, ip)
    ensures Given(max, net, c, found + [f], ips + [ip]) && InNet(max, net, ips + [ip])
  {
    var fs, all := found + [f], ips + [ip];
    forall k | 0 <= k < |fs| ensures GivenAt(max, net, c, fs, all, k) {
      if k == |found| {
        assert fs[..k + 1] == fs;
      } else {
        assert fs[..k + 1] == found[..k + 1];
        assert GivenAt(max, net, c, found, ips, k);
      }
    }
  }

  method FindName(dns: MappedDns, req: array<Byte>, qlen: nat, from: nat, ghost s: Key, ghost c: R.Cache<Key>)
    returns (name: Key, ip: nat)
    requires dns.Valid(c) && from < qlen <= req.Length && Asks(s, req[from..qlen])
    modifies dns, dns.dict, dns.dict.tree, dns.dict.tree.repr, dns.list, dns.list.repr, dns.records
    ensures name == First(s).name && req[..] == old(req[..])
    ensures var c' := R.Step(dns.max, c, R.Find(name)).0; dns.Valid(c') && GivenOne(dns.max, dns.net, c', name, ip)
    ensures forall n | n in dns.dict.tree.repr :: n in old(dns.dict.tree.repr) || fresh(n)
    ensures forall n | n in dns.list.repr :: n in old(dns.list.repr) || fresh(n)
  {
    name := CString(req, from + 1, qlen);
    CNameIs(s, NameLen(s));
    assert req[from + 1..qlen] == req[from..qlen][1..];
    var idx := dns.FindNew(name, c);
    SlotBelow(dns.max, R.Step(dns.max, c, R.Find(name)).0, name);
    ip := dns.net + idx;
  }

  /** The state after some questions: what they asked for, and what was given. */
  ghost predicate Serving(dns: MappedDns, c: R.Cache<Key>, found: seq<Found>, ips: seq<nat>)
    reads dns`byList, dns`use, dns.dict, dns.dict.tree, dns.dict.tree.repr, dns.list, dns.list.repr, dns.records
  {
    && dns.max > 0 && R.Wellformed(dns.max, c)
    && dns.Valid(After(dns.max, c, found)) && Given(dns.max, dns.net, c, found, ips) && InNet(dns.max, dns.net, ips)
  }

  method Give(dns: MappedDns, req: array<Byte>, qlen: nat, off: nat, ghost s: Key, found: seq<Found>, ips: seq<nat>,
              ghost c: R.Cache<Key>)
    returns (found': seq<Found>, ips': seq<nat>)
    requires Serving(dns, c, found, ips) && off < qlen <= req.Length && Asks(s, req[off..qlen])
    modifies dns, dns.dict, dns.dict.tree, dns.dict.tree.repr, dns.list, dns.list.repr, dns.records
    ensures found' == found + [Found(off, First(s).name)] && Serving(dns, c, found', ips') && req[..] == old(req[..])
    ensures forall n | n in dns.dict.tree.repr :: n in old(dns.dict.tree.repr) || fresh(n)
    ensures forall n | n in dns.list.repr :: n in old(dns.list.repr) || fresh(n)
  {
    ghost var c' := After(dns.max, c, found);
    var name, ip := FindName(dns, req, qlen, off, s, c');
    AfterOne(dns.max, c, found, Found(off, name));
    GivenNext(dns.max, dns.net, c, found, ips, Found(off, name), ip);
    found', ips' := found + [Found(off, name)], ips + [ip];
  }

  /** What has been found and what the rest of the questions holds make up `all`. */
  ghost predicate Reading(all: Scanned, found: seq<Found>, rest: Scanned) {
    all == Scanned(found + rest.found, rest.good, rest.off)
  }

  lemma {:induction false} ReadingOne(all: Scanned, found: seq<Found>, rest: Scanned, a: seq<Found>, rest': Scanned)
    requires Reading(all, found, rest) && rest == Scanned(a + rest'.found, rest'.good, rest'.off)
    ensures Reading(all, found + a, rest')
  {
    assert found + (a + rest'.found) == found + a + rest'.found;
  }

  lemma {:induction false} ReadingEnds(all: Scanned, found: seq<Found>, good: bool, off: nat)
    requires Reading(all, found, Scanned([], good, off))
    ensures all == Scanned(found, good, off)
  {
    assert found + [] == found;
  }

  /** A place in the request, and what the questions from there on hold. */
  datatype Stage = Stage(s: Key, off: nat, rest: Scanned)

  ghost predicate Leads(x: Stage, f: Front, y: Stage) {
    && f == First(x.s)
    && (f.Front? ==>
          && y.s == x.s[f.len..] && y.off == x.off + f.len
          && x.rest == Scanned(Asked(x.off, f.kind, f.name) + y.rest.found, y.rest.good, y.rest.off))
    && (f.Cut? ==> x.rest == Scanned([], false, x.off))
  }

  ghost predicate LeadsAt(plan: seq<Stage>, k: nat)
    requires k + 1 < |plan|
  {
    Leads(plan[k], First(plan[k].s), plan[k + 1])
  }

  ghost predicate Planned(plan: seq<Stage>, n: nat) {
    |plan| == n + 1 && plan[n].rest == Scanned([], true, plan[n].off) && forall k | 0 <= k < n :: LeadsAt(plan, k)
  }

  lemma {:induction false} PlanOne(x: Stage, f: Front, plan: seq<Stage>, n: nat)
    requires Planned(plan, n) && Leads(x, f, plan[0])
    ensures Planned([x] + plan, n + 1)
  {
    var all := [x] + plan;
    forall k | 0 <= k <= n ensures LeadsAt(all, k) {
      assert k > 0 ==> LeadsAt(plan, k - 1);
    }
  }

  /** `x` says what the next `n` questions hold. */
  ghost predicate Meets(x: Stage, n: nat) {
    x.rest == Scan(x.s, x.off, n)
  }

  ghost function StageAt(s: Key, off: nat, n: nat): (x: Stage)
    ensures Meets(x, n) && x.s == s && x.off == off
  {
    Stage(s, off, Scan(s, off, n))
  }

  lemma {:induction false} LeadsCut(x: Stage, f: Front, n: nat, y: Stage)
    requires Meets(x, n) && n > 0 && f == First(x.s) && f.Cut?
    ensures Leads(x, f, y)
  {}

  lemma {:induction false} LeadsOn(x: Stage, f: Front, n: nat, y: Stage, m: nat)
    requires Meets(x, n) && n == m + 1 && f == First(x.s) && f.Front?
    requires Meets(y, m) && y.s == x.s[f.len..] && y.off == x.off + f.len
    ensures Leads(x, f, y)
  {
    ScanStep(x.s, x.off, n, f, y.rest);
  }

  /** The place of the next question. */
  lemma {:induction false} NextStage(x: Stage, f: Front, n: nat, m: nat) returns (y: Stage)
    requires Meets(x, n) && n == m + 1 && f == First(x.s)
    ensures Leads(x, f, y) && Meets(y, m)
  {
    if f.Cut? {
      y := StageAt(x.s, x.off, m);
      LeadsCut(x, f, n, y);
    } else {
      y := StageAt(x.s[f.len..], x.off + f.len, m);
      LeadsOn(x, f, n, y, m);
    }
  }

  lemma {:induction false} PlanLast(x: Stage, n: nat)
    requires Meets(x, n) && n == 0
    ensures Planned([x], n)
  {}

  /** The places of all questions; behind a question that is cut off there is nothing to see. */
  lemma {:induction false} Plan(x: Stage, n: nat) returns (plan: seq<Stage>)
    requires Meets(x, n)
    ensures Planned(plan, n) && plan[0] == x
    decreases n
  {
    if n == 0 {
      PlanLast(x, n);
      plan := [x];
    } else {
      var f := First(x.s);
      var y := NextStage(x, f, n, n - 1);
      var more := Plan(y, n - 1);
      PlanOne(x, f, more, n - 1);
      plan := [x] + more;
    }
  }

  ghost predicate Within(x: Scanned, off: nat, len: nat, n: nat) {
    |x.found| <= n && off <= x.off <= off + len
  }

  lemma {:induction false} LeadsWithin(x: Stage, f: Front, y: Stage, n: nat)
    requires Leads(x, f, y) && (f.Front? ==> Within(y.rest, y.off, |y.s|, n))
    ensures Within(x.rest, x.off, |x.s|, n + 1)
  {}

  /** There are at most as many addresses as questions, and the questions end in the request. */
  lemma {:induction false} PlanWithin(plan: seq<Stage>, n: nat, k: nat)
    requires Planned(plan, n) && k <= n
    ensures Within(plan[k].rest, plan[k].off, |plan[k].s|, n - k)
    decreases n - k
  {
    if k < n {
      assert LeadsAt(plan, k);
      PlanWithin(plan, n, k + 1);
      LeadsWithin(plan[k], First(plan[k].s), plan[k + 1], n - k - 1);
    }
  }

  /** The loop over the questions: where it is in the request, or that it gave up. */
  ghost predicate Midway(all: Scanned, now: Key, qlen: nat, ok: bool, off: nat, x: Stage, found: seq<Found>, pre: Key,
                         post: Key)
  {
    if ok then x.off == off && Stands(now, off, qlen, pre, x.s, post) && Reading(all, found, x.rest)
    else all == Scanned(found, false, off)
  }

  lemma {:induction false} MidwayStart(now: Key, b: Key, post: Key, x: Stage)
    requires HEADER <= |b| && now == b + post && x.s == b[HEADER..] && x.off == HEADER
    ensures Midway(x.rest, now, |b|, true, HEADER, x, [], b[..HEADER], post)
  {
    assert b == b[..HEADER] + b[HEADER..];
    assert [] + x.rest.found == x.rest.found;
  }

  /** Reads the next question in the loop. */
  method ReadNext(req: array<Byte>, qlen: nat, off: nat, ghost all: Scanned, ghost found: seq<Found>, ghost pre: Key,
                  ghost x: Stage, ghost y: Stage, ghost post: Key)
    returns (ok: bool, next: nat, wanted: bool, ghost found': seq<Found>, ghost pre': Key)
    requires Midway(all, req[..], qlen, true, off, x, found, pre, post) && Leads(x, First(x.s), y)
    modifies req
    ensures Midway(all, req[..], qlen, ok, next, y, found', pre', post)
    ensures wanted ==> off < qlen <= req.Length && Asks(x.s, req[off..qlen])
    ensures found' == if wanted then found + [Found(off, First(x.s).name)] else found
  {
    ok, next, wanted, pre' := ReadQuestion(req, qlen, off, pre, x.s, post);
    found' := found;
    if ok {
      ghost var f := First(x.s);
      found' := found + Asked(off, f.kind, f.name);
      ReadingOne(all, found, x.rest, Asked(off, f.kind, f.name), y.rest);
      assert req[off..qlen] == req[..][off..qlen];
    } else {
      next := off;
      ReadingEnds(all, found, false, off);
    }
  }

  /** One round of the loop over the questions. */
  method Round(dns: MappedDns, req: array<Byte>, qlen: nat, off: nat, found: seq<Found>, ips: seq<nat>,
               ghost all: Scanned, ghost pre: Key, ghost x: Stage, ghost y: Stage, ghost post: Key,
               ghost c: R.Cache<Key>)
    returns (ok: bool, next: nat, found': seq<Found>, ips': seq<nat>, ghost pre': Key)
    requires Midway(all, req[..], qlen, true, off, x, found, pre, post) && Leads(x, First(x.s), y)
    requires Serving(dns, c, found, ips)
    modifies req, dns, dns.dict, dns.dict.tree, dns.dict.tree.repr, dns.list, dns.list.repr, dns.records
    ensures Midway(all, req[..], qlen, ok, next, y, found', pre', post) && Serving(dns, c, found', ips')
    ensures forall n | n in dns.dict.tree.repr :: n in old(dns.dict.tree.repr) || fresh(n)
    ensures forall n | n in dns.list.repr :: n in old(dns.list.repr) || fresh(n)
  {
    var wanted;
    ghost var fs;
    ok, next, wanted, fs, pre' := ReadNext(req, qlen, off, all, found, pre, x, y, post);
    found', ips' := found, ips;
    if wanted {
      found', ips' := Give(dns, req, qlen, off, x.s, found, ips, c);
    }
    assert found' == fs;
  }

  /** The loop over the questions. */
  method Rounds(dns: MappedDns, req: array<Byte>, qlen: nat, n: nat, ghost plan: seq<Stage>, ghost pre0: Key,
                ghost post: Key, ghost c: R.Cache<Key>)
    returns (ok: bool, off: nat, found: seq<Found>, ips: seq<nat>)
    requires Planned(plan, n) && Midway(plan[0].rest, req[..], qlen, true, HEADER, plan[0], [], pre0, post)
    requires Serving(dns, c, [], [])
    modifies req, dns, dns.dict, dns.dict.tree, dns.dict.tree.repr, dns.list, dns.list.repr, dns.records
    ensures plan[0].rest == Scanned(found, ok, off) && Serving(dns, c, found, ips)
    ensures forall n | n in dns.dict.tree.repr :: n in old(dns.dict.tree.repr) || fresh(n)
    ensures forall n | n in dns.list.repr :: n in old(dns.list.repr) || fresh(n)
  {
    ghost var all := plan[0].rest;
    ok, off, found, ips := true, HEADER, [], [];
    var k := 0;
    ghost var pre := pre0;
    while ok && k < n
      invariant k <= n && Serving(dns, c, found, ips)
      invariant Midway(all, req[..], qlen, ok, off, plan[k], found, pre, post)
      invariant forall n | n in dns.dict.tree.repr :: n in old(dns.dict.tree.repr) || fresh(n)
      invariant forall n | n in dns.list.repr :: n in old(dns.list.repr) || fresh(n)
    {
      assert LeadsAt(plan, k);
      ok, off, found, ips, pre :=
        Round(dns, req, qlen, off, found, ips, all, pre, plan[k], plan[k + 1], post, c);
      k := k + 1;
    }
    if ok {
      ReadingEnds(all, found, true, off);
    }
  }

  /** What the questions ask for is given. */
  method ReadQuestions(dns: MappedDns, req: array<Byte>, qlen: nat, n: nat, ghost b: Key, ghost post: Key,
                       ghost c: R.Cache<Key>)
    returns (ok: bool, off: nat, found: seq<Found>, ips: seq<nat>)
    requires dns.Valid(c) && HEADER <= qlen == |b| && req[..] == b + post
    modifies req, dns, dns.dict, dns.dict.tree, dns.dict.tree.repr, dns.list, dns.list.repr, dns.records
    ensures Scan(b[HEADER..], HEADER, n) == Scanned(found, ok, off) && Serving(dns, c, found, ips)
    ensures |found| <= n && HEADER <= off <= qlen
    ensures forall n | n in dns.dict.tree.repr :: n in old(dns.dict.tree.repr) || fresh(n)
    ensures forall n | n in dns.list.repr :: n in old(dns.list.repr) || fresh(n)
  {
    ghost var plan := Plan(StageAt(b[HEADER..], HEADER, n), n);
    MidwayStart(req[..], b, post, plan[0]);
    PlanWithin(plan, n, 0);
    ok, off, found, ips := Rounds(dns, req, qlen, n, plan, b[..HEADER], post, c);
  }
}
