/** The names of the answers in a DNS reply are pointers (section 4.1.4 of RFC 1035): where they lead. */
module DnsPointers {
  import opened Ordering
  import opened DnsMessages
  import opened DnsHandler
  import opened DnsAnswers

  // ---- A name does not depend on what follows it ----

  /** What a name with a first label is made of. */
  lemma {:induction false} NameStep(s: Key, n: nat, t: Key)
    requires s != [] && s[0] != 0 && n == 1 + s[0] as int < |s| && t == s[n..]
    ensures NameLen(s) == n + NameLen(t) && Dotted(s) == [DOT] + s[1..n] + Dotted(t)
  {}

  lemma {:induction false} LabelWithin(s: Key, n: nat, m: nat)
    requires s != [] && s[0] != 0 && n == 1 + s[0] as int && NameLen(s) < m <= |s|
    ensures n < m
  {}

  lemma {:induction false} DropFront(u: Key, x: Key, n: nat)
    requires 1 <= n <= |u|
    ensures (u + x)[n..] == u[n..] + x && (u + x)[1..n] == u[1..n]
  {}

  /** `u` and `w` start with the same name. */
  ghost predicate Agree(u: Key, w: Key) {
    NameLen(u) == NameLen(w) && Dotted(u) == Dotted(w)
  }

  lemma {:induction false} AgreeStep(u: Key, x: Key, n: nat)
    requires u != [] && u[0] != 0 && n == 1 + u[0] as int < |u| && Agree(u[n..], u[n..] + x)
    ensures Agree(u, u + x)
  {
    DropFront(u, x, n);
    NameStep(u, n, u[n..]);
    NameStep(u + x, n, u[n..] + x);
  }

  lemma {:induction false} AgreeEmpty(u: Key, w: Key)
    requires u != [] && w != [] && u[0] == 0 && w[0] == 0
    ensures Agree(u, w)
  {}

  lemma {:induction false} Shorter(u: Key, x: Key)
    requires u != [] && NameLen(u + x) < |u|
    ensures Agree(u, u + x)
    decreases |u|
  {
    if u[0] == 0 {
      AgreeEmpty(u, u + x);
    } else {
      var n := 1 + u[0] as int;
      LabelWithin(u + x, n, |u|);
      DropFront(u, x, n);
      NameStep(u + x, n, u[n..] + x);
      Shorter(u[n..], x);
      AgreeStep(u, x, n);
    }
  }

  lemma {:induction false} Longer(u: Key, x: Key)
    requires u != [] && NameLen(u) < |u|
    ensures Agree(u, u + x)
    decreases |u|
  {
    if u[0] == 0 {
      AgreeEmpty(u, u + x);
    } else {
      var n := 1 + u[0] as int;
      LabelWithin(u, n, |u|);
      NameStep(u, n, u[n..]);
      Longer(u[n..], x);
      AgreeStep(u, x, n);
    }
  }

  /** With another tail it is the same name. */
  lemma {:induction false} SameName(u: Key, x: Key, y: Key)
    requires u != [] && NameLen(u + x) < |u|
    ensures Name(u + y) == Name(u + x)
  {
    Shorter(u, x);
    Longer(u, y);
  }

  // ---- Where the questions stand ----

  /** At the front of `t` is a name that ends before `len`. */
  predicate NameFits(t: Key, len: nat, name: Key) {
    NameLen(t) < len <= |t| && Name(t) == name
  }

  /** The name at `i` ends before `end`. */
  predicate NameAt(s: Key, i: nat, end: nat, name: Key) {
    i <= end <= |s| && NameFits(s[i..], end - i, name)
  }

  lemma {:induction false} NameBehind(s: Key, t: Key, len: nat, i: nat, end: nat, name: Key)
    requires len <= |s| && t == s[len..] && NameAt(t, i, end, name)
    ensures NameAt(s, len + i, len + end, name)
  {
    assert t[i..] == s[len + i..];
  }

  /** A question found in `s`, which stands at `off` in the request and holds the questions up to `end`. */
  ghost predicate Stands(s: Key, off: nat, end: nat, f: Found) {
    off <= f.at && off <= end && NameAt(s, f.at - off, end - off, f.name)
  }

  lemma {:induction false} StandsLater(s: Key, t: Key, off: nat, len: nat, end: nat, f: Found)
    requires len <= |s| && t == s[len..] && Stands(t, off + len, end, f)
    ensures Stands(s, off, end, f)
  {
    NameBehind(s, t, len, f.at - (off + len), end - (off + len), f.name);
  }

  lemma {:induction false} StandsFirst(s: Key, off: nat, f: Front, end: nat)
    requires First(s) == f && f.Front? && off + f.len <= end <= off + |s|
    ensures Stands(s, off, end, Found(off, f.name))
  {
    assert s[0..] == s;
  }

  ghost predicate AllStand(s: Key, off: nat, end: nat, fs: seq<Found>) {
    forall k | 0 <= k < |fs| :: Stands(s, off, end, fs[k])
  }

  lemma {:induction false} AllLater(s: Key, t: Key, off: nat, len: nat, end: nat, fs: seq<Found>)
    requires len <= |s| && t == s[len..] && AllStand(t, off + len, end, fs)
    ensures AllStand(s, off, end, fs)
  {
    forall k | 0 <= k < |fs| ensures Stands(s, off, end, fs[k]) {
      StandsLater(s, t, off, len, end, fs[k]);
    }
  }

  lemma {:induction false} AllMore(s: Key, off: nat, end: nat, kind: Key, name: Key, fs: seq<Found>)
    requires Stands(s, off, end, Found(off, name)) && AllStand(s, off, end, fs)
    ensures AllStand(s, off, end, Asked(off, kind, name) + fs)
  {}

  /** What was found stands where it was found, in the questions, which end in the request. */
  ghost predicate Placed(s: Key, off: nat, x: Scanned) {
    off <= x.off <= off + |s| && AllStand(s, off, x.off, x.found)
  }

  lemma {:induction false} PlacedMore(s: Key, t: Key, off: nat, f: Front, rest: Scanned)
    requires f.Front? && f.len <= |s| && t == s[f.len..] && Placed(t, off + f.len, rest)
    requires Stands(s, off, rest.off, Found(off, f.name))
    ensures Placed(s, off, Scanned(Asked(off, f.kind, f.name) + rest.found, rest.good, rest.off))
  {
    AllLater(s, t, off, f.len, rest.off, rest.found);
    AllMore(s, off, rest.off, f.kind, f.name, rest.found);
  }

  lemma {:induction false} ScanCut(s: Key, off: nat, n: nat)
    requires n == 0 || First(s).Cut?
    ensures Placed(s, off, Scan(s, off, n))
  {}

  /** Every A/IN question that is found stands where it was found. */
  lemma {:induction false} FoundStand(s: Key, off: nat, n: nat)
    ensures Placed(s, off, Scan(s, off, n))
    decreases n
  {
    var f := First(s);
    if n > 0 && f.Front? {
      var t := s[f.len..];
      FoundStand(t, off + f.len, n - 1);
      var rest := Scan(t, off + f.len, n - 1);
      StandsFirst(s, off, f, rest.off);
      PlacedMore(s, t, off, f, rest);
      ScanStep(s, off, n, f, rest);
    } else {
      ScanCut(s, off, n);
    }
  }

  // ---- In a reply ----

  /** The offset of a compression pointer. */
  function Pointer(hi: Byte, lo: Byte): nat {
    U16(hi % 64, lo)
  }

  /** The name stands at a place of the reply. */
  ghost predicate Named(reply: Key, at: nat, name: Key) {
    at <= |reply| && Name(reply[at..]) == name
  }

  /** A pointer to a place. */
  ghost predicate Points(reply: Key, i: nat, to: nat) {
    i + 2 <= |reply| && reply[i] >= 0xC0 && Pointer(reply[i], reply[i + 1]) == to
  }

  lemma {:induction false} Echoed(b: Key, s: Scanned, ips: seq<nat>, reply: Key, at: nat)
    requires |b| >= HEADER && IsReply(b, s, ips, reply) && HEADER <= at <= s.off
    ensures at <= |reply| && b[at..] == b[at..s.off] + b[s.off..]
    ensures reply[at..] == b[at..s.off] + Answers(s.found, ips)
  {
    var h, q, y := ReplyHeader(b, |ips|), b[HEADER..s.off], Answers(s.found, ips);
    assert q[at - HEADER..] == b[at..s.off];
    assert (h + q + y)[at..] == q[at - HEADER..] + y;
  }

  /** The questions of a reply are those of the request. */
  lemma {:induction false} EchoedName(b: Key, s: Scanned, ips: seq<nat>, reply: Key, at: nat, name: Key)
    requires |b| >= HEADER && IsReply(b, s, ips, reply) && HEADER <= at && NameAt(b, at, s.off, name)
    ensures Named(reply, at, name)
  {
    var u, x, y := b[at..s.off], b[s.off..], Answers(s.found, ips);
    Echoed(b, s, ips, reply, at);
    SameName(u, x, y);
  }

  lemma {:induction false} AnswerFront(s: Key, i: nat, at: nat, ip: nat)
    requires ip < 0x1_0000_0000 && i + 16 <= |s| && s[i..i + 16] == Answer(at, ip)
    ensures s[i] == 0xC0 && s[i + 1] == at % 256
  {
    assert s[i] == s[i..i + 16][0] && s[i + 1] == s[i..i + 16][1];
  }

  lemma {:induction false} PointerOf(b: Key, s: Scanned, ips: seq<nat>, reply: Key, k: nat, i: nat)
    requires |b| >= HEADER && IsReply(b, s, ips, reply) && k < |ips| && i == s.off + 16 * k
    ensures Points(reply, i, s.found[k].at % 256)
  {
    AnswerIn(b, s, ips, reply, k, i);
    AnswerFront(reply, i, s.found[k].at, ips[k]);
  }

  lemma {:induction false} QuestionStands(b: Key, s: Scanned, k: nat)
    requires |b| >= HEADER && s == ScanRequest(b) && k < |s.found|
    ensures HEADER <= s.found[k].at && NameAt(b, s.found[k].at, s.off, s.found[k].name)
  {
    var t, f := b[HEADER..], s.found[k];
    FoundStand(t, HEADER, U16(b[4], b[5]));
    assert Stands(t, HEADER, s.off, f);
    StandsLater(b, t, 0, HEADER, s.off, f);
  }

  lemma {:induction false} PointsTo(b: Key, s: Scanned, ips: seq<nat>, reply: Key, k: nat, i: nat, f: Found)
    requires |b| >= HEADER && s == ScanRequest(b) && IsReply(b, s, ips, reply)
    requires k < |ips| && i == s.off + 16 * k && f == s.found[k]
    ensures Named(reply, f.at, f.name) && Points(reply, i, f.at % 256)
  {
    QuestionStands(b, s, k);
    EchoedName(b, s, ips, reply, f.at, f.name);
    PointerOf(b, s, ips, reply, k, i);
  }

  /** The name of the question that an answer belongs to stands in the reply, and the name of the answer is a pointer
      that leads to it exactly if it starts in the first 256 bytes. */
  lemma {:induction false} PointsExactly(b: Key, s: Scanned, ips: seq<nat>, reply: Key, k: nat, i: nat, f: Found)
    requires |b| >= HEADER && s == ScanRequest(b) && IsReply(b, s, ips, reply)
    requires k < |ips| && i == s.off + 16 * k && f == s.found[k]
    ensures Named(reply, f.at, f.name) && (Points(reply, i, f.at) <==> f.at < 256)
  {
    PointsTo(b, s, ips, reply, k, i, f);
    OnePlace(reply, i, f.at);
  }

  lemma {:induction false} OnePlace(reply: Key, i: nat, at: nat)
    requires Points(reply, i, at % 256)
    ensures Points(reply, i, at) <==> at < 256
  {}

  lemma {:induction false} TwoWanted(l: Key, q: Question)
    requires ProperLabel(l) && |l| == 250 && q == Question([l], A_IN)
    ensures AllProper([q, q]) && Wanted([q, q], HEADER) == [Found(12, l), Found(268, l)]
  {
    assert q.labels[0] == l && NameBytes([]) == [0] && [l][1..] == [];
    assert NameBytes([l]) == [250] + l + [0];
    assert DotLabels([l]) == [DOT] + l + DotLabels([]) == [DOT] + l;
    assert DotName([l]) == l;
    assert Proper(q) && [q, q][1..] == [q];
    assert Wanted([q], 268) == [Found(268, l)] by {
      assert [q][1..] == [];
    }
  }

  lemma {:induction false} TwoFound(h: Key, l: Key, q: Question, b: Key, qs: seq<Question>)
    requires |h| == HEADER && U16(h[4], h[5]) == |qs| && ProperLabel(l) && |l| == 250 && q == Question([l], A_IN)
    requires qs == [q, q] && AllProper(qs) && b == h + Questions(qs)
    ensures ScanRequest(b).found == [Found(12, l), Found(268, l)]
  {
    TwoWanted(l, q);
    assert b == h + Questions(qs) + [];
    ProperRequest(h, qs, []);
  }

  /** Two questions with a label of 250 bytes: in every reply the second one is at 268, and its answer points to 12. */
  lemma {:induction false} FarQuestion(h: Key, l: Key, q: Question, b: Key, qs: seq<Question>, ips: seq<nat>,
                                       reply: Key)
    requires |h| == HEADER && U16(h[4], h[5]) == |qs| && ProperLabel(l) && |l| == 250 && q == Question([l], A_IN)
    requires qs == [q, q] && AllProper(qs) && b == h + Questions(qs) && IsReply(b, ScanRequest(b), ips, reply)
    ensures Named(reply, 268, l) && Points(reply, ScanRequest(b).off + 16, 12)
  {
    TwoFound(h, l, q, b, qs);
    var s := ScanRequest(b);
    PointsTo(b, s, ips, reply, 1, s.off + 16, s.found[1]);
  }
}
