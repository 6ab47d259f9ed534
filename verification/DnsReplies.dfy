/** The bytes of a DNS reply one by one (section 4.1 of RFC 1035), and the requests that get one. */
module DnsReplies {
  import opened Ordering
  import opened DnsMessages
  import opened DnsHandler
  import opened DnsAnswers

  /** The header: the identifier and the question count of the request, QR set, RA set if it was or RD is, all other
      flags as they were, the number of answers, and no authority and additional records. */
  ghost predicate HeaderOf(b: Key, n: nat, r: Key)
    requires |b| >= 12
  {
    && |r| >= 12 && r[0] == b[0] && r[1] == b[1]
    && r[2] / 128 == 1 && r[2] % 128 == b[2] % 128
    && (r[3] / 128 == 1 <==> b[2] % 2 == 1 || b[3] / 128 == 1) && r[3] % 128 == b[3] % 128
    && r[4] == b[4] && r[5] == b[5]
    && r[6] as int * 256 + r[7] as int == n
    && r[8] == 0 && r[9] == 0 && r[10] == 0 && r[11] == 0
  }

  lemma {:induction false} HeaderBytes(b: Key, n: nat, h: Key)
    requires |b| >= HEADER && n < 0x1_0000 && h == ReplyHeader(b, n)
    ensures HeaderOf(b, n, h)
  {
    assert h[0] == b[..2][0] && h[1] == b[..2][1] && h[4] == b[4..6][0] && h[5] == b[4..6][1];
    assert h[2] == FlagsHigh(b[2]) && h[3] == FlagsLow(b[2], b[3]);
    assert h[6] == Bytes16(n)[0] && h[7] == Bytes16(n)[1];
  }

  lemma {:induction false} SameHeader(b: Key, n: nat, h: Key, r: Key)
    requires |b| >= 12 && HeaderOf(b, n, h) && |h| == 12 && h <= r
    ensures HeaderOf(b, n, r)
  {}

  /** Every reply has this header, and the questions as they came. */
  lemma {:induction false} ReplyBits(b: Key, s: Scanned, ips: seq<nat>, reply: Key)
    requires |b| >= HEADER && IsReply(b, s, ips, reply)
    ensures HeaderOf(b, |ips|, reply) && 12 <= s.off <= |reply| && s.off <= |b| && reply[12..s.off] == b[12..s.off]
  {
    var h, q, a := ReplyHeader(b, |ips|), b[HEADER..s.off], Answers(s.found, ips);
    HeaderBytes(b, |ips|, h);
    assert reply == h + (q + a);
    SameHeader(b, |ips|, h, reply);
    assert reply[12..s.off] == (q + a)[..|q|] == q;
  }

  /** Behind the pointer of every answer: type A, class IN, a second to live, and an address of four bytes. */
  lemma {:induction false} AnswerFields(b: Key, s: Scanned, ips: seq<nat>, reply: Key, k: nat, i: nat)
    requires |b| >= HEADER && IsReply(b, s, ips, reply) && k < |ips| && i == s.off + 16 * k
    ensures i + 16 <= |reply| && reply[i + 2..i + 12] == [0, 1, 0, 1, 0, 0, 0, 1, 0, 4]
    ensures Weighed(reply, i + 12) == ips[k]
  {
    AnswerIn(b, s, ips, reply, k, i);
    var a := Answer(s.found[k].at, ips[k]);
    FieldsOf(s.found[k].at, ips[k]);
    Inner(reply, i, a, 2, 12);
    Inner(reply, i, a, 12, 16);
    ValueOfBytes(ips[k]);
    Bytes4(reply, i + 12);
  }

  /** Four bytes, the most significant one first. */
  function Weighed(r: Key, i: nat): nat
    requires i + 4 <= |r|
  {
    ((r[i] as int * 256 + r[i + 1] as int) * 256 + r[i + 2] as int) * 256 + r[i + 3] as int
  }

  lemma {:induction false} Bytes4(r: Key, i: nat)
    requires i + 4 <= |r|
    ensures Weighed(r, i) == Value32(r[i..i + 4])
  {}

  lemma {:induction false} FieldsOf(at: nat, ip: nat)
    requires ip < 0x1_0000_0000
    ensures Answer(at, ip)[2..12] == [0, 1, 0, 1, 0, 0, 0, 1, 0, 4] && Answer(at, ip)[12..16] == Bytes32(ip)
  {}

  lemma {:induction false} Inner(r: Key, i: nat, a: Key, x: nat, y: nat)
    requires x <= y <= |a| == 16 && i + 16 <= |r| && r[i..i + 16] == a
    ensures r[i + x..i + y] == a[x..y]
  {
    forall t | x <= t < y ensures r[i + t] == a[t] {
      assert r[i..i + 16][t] == r[i + t];
    }
  }

  // ---- Which requests get a reply ----

  /** A well-formed request is answered exactly if it has at most 32 questions and the reply fits. */
  lemma {:induction false} AnsweredExactly(h: Key, qs: seq<Question>, c: Key, slen: nat)
    requires |h| == 12 && AllProper(qs) && h[4] as int * 256 + h[5] as int == |qs|
    ensures var b := h + Questions(qs) + c; var len := 12 + |Questions(qs)| + 16 * |Wanted(qs, 12)|;
            ReplyLength(b, slen, ScanRequest(b)) == if |b| <= slen && |qs| <= 32 && len <= slen then len else -1
  {
    var b := h + Questions(qs) + c;
    ProperRequest(h, qs, c);
    assert b[4] == h[4] && b[5] == h[5];
  }

  /** An address is wanted exactly for the questions of type 1 and class 1. */
  lemma {:induction false} WantedNext(qs: seq<Question>, off: nat)
    requires AllProper(qs) && qs != []
    ensures Wanted(qs, off) == (if qs[0].kind == [0, 1, 0, 1] then [Found(off, DotName(qs[0].labels))] else []) +
                               Wanted(qs[1..], off + |QuestionBytes(qs[0])|)
  {}

  /** The name that is looked for are the labels with dots between them. */
  lemma {:induction false} DotsBetween(l: Key, more: seq<Key>)
    ensures DotName([l] + more) == if more == [] then l else l + ['.' as int] + DotName(more)
  {
    var ls := [l] + more;
    assert ls[1..] == more && DotLabels(ls) == [DOT] + (l + DotLabels(more));
    if more != [] {
      assert DotLabels(more) == [DOT] + (more[0] + DotLabels(more[1..]));
      assert DotLabels(more) == [DOT] + DotName(more);
    }
  }
}
