/** hev_mapped_dns_handle: from a DNS request to the reply, and from an address in the reply back to the name. */
module DnsHandler {
  import opened Ordering
  import opened DnsMessages
  import opened DnsServer
  import opened MappedDns
  import R = Recency

  // ---- Writing ----

  method WriteU16(res: array<Byte>, off: nat, v: nat)
    requires off + 2 <= res.Length && v < 0x1_0000
    modifies res
    ensures res[..off + 2] == old(res[..off]) + Bytes16(v) && res[off + 2..] == old(res[off + 2..])
  {
    res[off], res[off + 1] := v / 256, v % 256;
  }

  method WriteU32(res: array<Byte>, off: nat, v: nat)
    requires off + 4 <= res.Length && v < 0x1_0000_0000
    modifies res
    ensures res[..off + 4] == old(res[..off]) + Bytes32(v)
  {
    res[off], res[off + 1] := v / 0x100_0000, v / 0x1_0000 % 256;
    res[off + 2], res[off + 3] := v / 256 % 256, v % 256;
  }

  /** Everything of an answer but its address. */
  method WriteFront(res: array<Byte>, off: nat, at: nat)
    requires off + 12 <= res.Length
    modifies res
    ensures res[..off + 12] == old(res[..off]) + [0xC0, at % 256, 0, 1, 0, 1, 0, 0, 0, 1, 0, 4]
  {
    res[off], res[off + 1] := 0xC0, at % 256;
    WriteU16(res, off + 2, 1);
    WriteU16(res, off + 4, 1);
    WriteU32(res, off + 6, 1);
    WriteU16(res, off + 10, 4);
  }

  method WriteAnswer(res: array<Byte>, off: nat, at: nat, ip: nat)
    requires off + 16 <= res.Length && ip < 0x1_0000_0000
    modifies res
    ensures res[..off + 16] == old(res[..off]) + Answer(at, ip)
  {
    WriteFront(res, off, at);
    WriteU32(res, off + 12, ip);
  }

  ghost predicate Small(ips: seq<nat>) {
    forall k | 0 <= k < |ips| :: ips[k] < 0x1_0000_0000
  }

  lemma {:induction false} AnswersOne(found: seq<Found>, ips: seq<nat>, k: nat)
    requires |found| == |ips| && k < |found| && Small(ips)
    ensures Small(ips[..k]) && Small(ips[..k + 1])
    ensures Answers(found[..k + 1], ips[..k + 1]) == Answers(found[..k], ips[..k]) + Answer(found[k].at, ips[k])
  {
    assert found[..k + 1][..k] == found[..k] && ips[..k + 1][..k] == ips[..k];
  }

  /** The first `k` answers are behind `pre`. */
  ghost predicate Written(now: Key, pre: Key, found: seq<Found>, ips: seq<nat>, k: nat) {
    |ips| == |found| && k <= |found| && Small(ips[..k]) && now == pre + Answers(found[..k], ips[..k])
  }

  method WriteNext(res: array<Byte>, off: nat, found: seq<Found>, ips: seq<nat>, k: nat, ghost pre: Key)
    requires off + 16 <= res.Length && |found| == |ips| && k < |found| && Small(ips)
    requires Written(res[..off], pre, found, ips, k)
    modifies res
    ensures Written(res[..off + 16], pre, found, ips, k + 1)
  {
    AnswersOne(found, ips, k);
    WriteAnswer(res, off, found[k].at, ips[k]);
  }

  /** The answers go behind the questions, while there is space. */
  method WriteAnswers(res: array<Byte>, from: nat, slen: nat, found: seq<Found>, ips: seq<nat>) returns (r: int)
    requires from <= slen <= res.Length && |found| == |ips| && Small(ips)
    modifies res
    ensures r == if from + 16 * |found| <= slen then from + 16 * |found| else -1
    ensures r >= 0 ==> res[..r] == old(res[..from]) + Answers(found, ips)
  {
    var off := from;
    ghost var pre := res[..from];
    for k := 0 to |found|
      invariant off == from + 16 * k <= slen && Written(res[..off], pre, found, ips, k)
    {
      if off + 15 >= slen {
        return -1;
      }
      WriteNext(res, off, found, ips, k, pre);
      off := off + 16;
    }
    assert found[..|found|] == found && ips[..|ips|] == ips;
    r := off;
  }

  /** The request with no answer, authority and additional records. */
  ghost function Cleared(b: Key): (r: Key)
    requires |b| >= HEADER
    ensures |r| == |b|
  {
    b[..6] + [0, 0, 0, 0, 0, 0] + b[12..]
  }

  method ClearCounts(res: array<Byte>)
    requires HEADER <= res.Length
    modifies res
    ensures res[..HEADER] == old(res[..6]) + [0, 0, 0, 0, 0, 0] && res[HEADER..] == old(res[HEADER..])
  {
    WriteU16(res, 6, 0);
    ghost var tail := res[8..];
    WriteU16(res, 8, 0);
    assert res[10..] == tail[2..];
    tail := res[10..];
    WriteU16(res, 10, 0);
    assert res[12..] == tail[2..];
  }

  method CopyRequest(req: array<Byte>, qlen: nat, res: array<Byte>)
    requires HEADER <= qlen <= req.Length && qlen <= res.Length && req != res
    modifies res
    ensures res[..qlen] == Cleared(req[..qlen])
  {
    for k := 0 to qlen
      invariant res[..k] == req[..k]
    {
      res[k] := req[k];
    }
    ghost var b, tail := req[..qlen], res[HEADER..];
    assert res[..6] == b[..6] && tail[..qlen - HEADER] == b[HEADER..];
    ClearCounts(res);
    assert res[..qlen] == res[..HEADER] + res[HEADER..][..qlen - HEADER];
  }

  /** The flags of the reply: QR set, and RA as RD. */
  method ReplyFlags(hi: Byte, lo: Byte) returns (fl: nat)
    ensures fl < 0x1_0000 && Bytes16(fl) == [FlagsHigh(hi), FlagsLow(hi, lo)]
  {
    fl := U16(hi, lo);
    var rd := fl / 0x100 % 2;
    if fl < 0x8000 {
      fl := fl + 0x8000;
    }
    if rd == 1 && fl % 0x100 < 0x80 {
      fl := fl + 0x80;
    }
  }

  method FinishHeader(res: array<Byte>, count: nat)
    requires HEADER <= res.Length && count < 0x1_0000
    modifies res
    ensures var o := old(res[..]);
            res[..] == o[..2] + [FlagsHigh(o[2]), FlagsLow(o[2], o[3])] + o[4..6] + Bytes16(count) + o[8..]
  {
    ghost var o := res[..];
    var fl := ReplyFlags(res[2], res[3]);
    WriteU16(res, 2, fl);
    ghost var p := res[..];
    assert p == o[..2] + Bytes16(fl) + o[4..];
    assert p[..6] == o[..2] + Bytes16(fl) + o[4..6] && p[8..] == o[8..];
    WriteU16(res, 6, count);
    assert res[..] == p[..6] + Bytes16(count) + p[8..];
  }

  lemma {:induction false} ReplyIs(b: Key, off: nat, count: nat, ans: Key, now: Key, tail: Key)
    requires HEADER <= off <= |b| && count < 0x1_0000
    requires var o := Cleared(b)[..off] + ans + tail;
      now == o[..2] + [FlagsHigh(o[2]), FlagsLow(o[2], o[3])] + o[4..6] + Bytes16(count) + o[8..]
    ensures now == ReplyHeader(b, count) + b[HEADER..off] + ans + tail
  {
    var c := Cleared(b);
    var o := c[..off] + ans + tail;
    assert o[..2] == b[..2] && o[2] == b[2] && o[3] == b[3] && o[4..6] == b[4..6];
    assert o[8..] == [0, 0, 0, 0] + b[HEADER..off] + ans + tail;
  }

  const MAX_QUESTIONS := 32

  /** What the questions of a request ask for. */
  function ScanRequest(b: Key): Scanned
    requires |b| >= HEADER
  {
    Scan(b[HEADER..], HEADER, U16(b[4], b[5]))
  }

  /** The length of the reply, or -1. */
  function ReplyLength(b: Key, slen: nat, s: Scanned): int
    requires |b| >= HEADER
  {
    var len := s.off + 16 * |s.found|;
    if |b| <= slen && U16(b[4], b[5]) <= MAX_QUESTIONS && s.good && len <= slen then len else -1
  }

  /** The bytes of the reply: header, the questions as they came, and an address for every A/IN question. */
  ghost predicate IsReply(b: Key, s: Scanned, ips: seq<nat>, reply: Key)
    requires |b| >= HEADER
  {
    && HEADER <= s.off <= |b| && |ips| == |s.found| < 0x1_0000 && Small(ips)
    && reply == ReplyHeader(b, |ips|) + b[HEADER..s.off] + Answers(s.found, ips)
  }

  /** The answers and the header of the reply, once the questions have been read. */
  method Reply(res: array<Byte>, slen: nat, off: nat, found: seq<Found>, ips: seq<nat>, ghost b: Key) returns (r: int)
    requires HEADER <= off <= |b| <= slen <= res.Length && res[..|b|] == Cleared(b)
    requires |found| == |ips| < 0x1_0000 && Small(ips)
    modifies res
    ensures r == if off + 16 * |found| <= slen then off + 16 * |found| else -1
    ensures r >= 0 ==> IsReply(b, Scanned(found, true, off), ips, res[..r])
  {
    assert res[..off] == Cleared(b)[..off];
    r := WriteAnswers(res, off, slen, found, ips);
    if r >= 0 {
      ghost var tail := res[r..];
      assert res[..] == res[..r] + tail;
      FinishHeader(res, |found|);
      ReplyIs(b, off, |found|, Answers(found, ips), res[..], tail);
      assert res[..r] == res[..][..r];
    }
  }

  /** The rest of handle, when the request has been copied and does not have too many questions. */
  method Respond(dns: MappedDns, req: array<Byte>, qlen: nat, n: nat, res: array<Byte>, slen: nat, ghost b: Key,
                 ghost post: Key, ghost c: R.Cache<Key>)
    returns (r: int, ghost s: Scanned, ghost ips: seq<nat>)
    requires dns.Valid(c) && dns.net + dns.max <= 0x1_0000_0000 && req != res
    requires HEADER <= qlen == |b| <= slen <= res.Length && req[..] == b + post && n <= MAX_QUESTIONS
    requires res[..qlen] == Cleared(b)
    modifies req, res, dns, dns.dict, dns.dict.tree, dns.dict.tree.repr, dns.list, dns.list.repr, dns.records
    ensures s == Scan(b[HEADER..], HEADER, n) && Serving(dns, c, s.found, ips)
    ensures r == if s.good && s.off + 16 * |s.found| <= slen then s.off + 16 * |s.found| else -1
    ensures r >= 0 ==> IsReply(b, s, ips, res[..r])
    ensures forall n | n in dns.dict.tree.repr :: n in old(dns.dict.tree.repr) || fresh(n)
    ensures forall n | n in dns.list.repr :: n in old(dns.list.repr) || fresh(n)
  {
    var ok, off, asked, given := ReadQuestions(dns, req, qlen, n, b, post, c);
    s, ips := Scanned(asked, ok, off), given;
    if !ok {
      return -1, s, ips;
    }
    r := Reply(res, slen, off, asked, given, b);
  }

  /** hev_mapped_dns_handle. */
  method Handle(dns: MappedDns, req: array<Byte>, qlen: nat, res: array<Byte>, slen: nat, ghost c: R.Cache<Key>)
    returns (r: int, ghost found: seq<Found>, ghost ips: seq<nat>)
    requires dns.Valid(c) && dns.net + dns.max <= 0x1_0000_0000
    requires HEADER <= qlen <= req.Length && slen <= res.Length && req != res
    modifies req, res, dns, dns.dict, dns.dict.tree, dns.dict.tree.repr, dns.list, dns.list.repr, dns.records
    ensures var b := old(req[..qlen]); r == ReplyLength(b, slen, ScanRequest(b))
    ensures Serving(dns, c, found, ips)
    ensures r >= 0 ==>
              var s := ScanRequest(old(req[..qlen]));
              found == s.found && r <= res.Length && IsReply(old(req[..qlen]), s, ips, res[..r])
    ensures forall n | n in dns.dict.tree.repr :: n in old(dns.dict.tree.repr) || fresh(n)
    ensures forall n | n in dns.list.repr :: n in old(dns.list.repr) || fresh(n)
  {
    ghost var b, post := req[..qlen], req[qlen..];
    assert req[..] == b + post;
    if slen < qlen {
      return -1, [], [];
    }
    CopyRequest(req, qlen, res);
    var n := U16(req[4], req[5]);
    if n > MAX_QUESTIONS {
      return -1, [], [];
    }
    ghost var s;
    r, s, ips := Respond(dns, req, qlen, n, res, slen, b, post, c);
    found := s.found;
  }
}
