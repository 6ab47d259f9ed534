/** DNS requests and the replies of the mapped-DNS server as bytes (section 4.1 of RFC 1035). */
module DnsMessages {
  import opened Ordering

  const HEADER := 12
  const DOT: Byte := 46

  function U16(hi: Byte, lo: Byte): nat {
    hi as int * 256 + lo as int
  }

  function Bytes16(n: nat): Key
    requires n < 0x1_0000
  {
    [n / 256, n % 256]
  }

  function Bytes32(n: nat): (r: Key)
    requires n < 0x1_0000_0000
    ensures |r| == 4
  {
    [n / 0x100_0000, n / 0x1_0000 % 256, n / 256 % 256, n % 256]
  }

  // ---- Names ----

  /** The length of the name that `s` starts with, without its zero byte; at least |s| if it does not end. */
  function NameLen(s: Key): (n: nat)
    ensures n < |s| ==> s[n] == 0
    decreases |s|
  {
    if s == [] || s[0] == 0 then 0
    else
      var n := 1 + s[0] as int;
      if n >= |s| then |s| else n + NameLen(s[n..])
  }

  /** The name with a dot in the place of every length byte. */
  function Dotted(s: Key): Key
    decreases |s|
  {
    if s == [] || s[0] == 0 then []
    else
      var n := 1 + s[0] as int;
      if n >= |s| then [DOT] + s[1..] else [DOT] + s[1..n] + Dotted(s[n..])
  }

  lemma {:induction false} DottedLength(s: Key)
    requires NameLen(s) < |s|
    ensures |Dotted(s)| == NameLen(s)
    decreases |s|
  {
    if s[0] != 0 {
      DottedLength(s[1 + s[0] as int..]);
    }
  }

  /** A C string. */
  function UpToZero(s: Key): Key {
    if s == [] || s[0] == 0 then [] else [s[0]] + UpToZero(s[1..])
  }

  /** A C string is what comes before the first zero. */
  lemma {:induction false} UpToZeroIs(s: Key, n: nat)
    requires n <= |s| && (n < |s| ==> s[n] == 0) && forall k | 0 <= k < n :: s[k] != 0
    ensures UpToZero(s) == s[..n]
    decreases n
  {
    if n > 0 {
      UpToZeroIs(s[1..], n - 1);
      assert s[..n] == [s[0]] + s[1..][..n - 1];
    }
  }

  lemma {:induction false} UpToZeroFront(a: Key, b: Key)
    requires b != [] && b[0] == 0
    ensures UpToZero(a + b) == UpToZero(a)
    decreases |a|
  {
    if a == [] {
      assert a + b == b;
    } else {
      assert (a + b)[1..] == a[1..] + b;
      UpToZeroFront(a[1..], b);
    }
  }

  /** The name that is looked for: the dotted name without its first dot, as a C string. */
  function Name(s: Key): Key {
    var d := Dotted(s);
    if d == [] then [] else UpToZero(d[1..])
  }

  // ---- Questions ----

  /** An A/IN question: where its name is, and what it is. */
  datatype Found = Found(at: nat, name: Key)

  datatype Scanned = Scanned(found: seq<Found>, good: bool, off: nat)

  const A_IN: Key := [0, 1, 0, 1]

  /** The first question of `s`: its length, its type and class, and its name. */
  datatype Front = Front(len: nat, kind: Key, name: Key) | Cut

  function First(s: Key): (f: Front)
    ensures f.Front? ==> f.len <= |s|
  {
    var e := NameLen(s);
    if e + 4 >= |s| then Cut else Front(e + 5, s[e + 1..e + 5], Name(s))
  }

  /** What the `n` questions that `s` starts with ask for, and where they end; `off` is the place of `s` in the
      request. */
  function Scan(s: Key, off: nat, n: nat): Scanned
    decreases n
  {
    if n == 0 then Scanned([], true, off)
    else
      match First(s)
      case Cut => Scanned([], false, off)
      case Front(len, kind, name) =>
        var rest := Scan(s[len..], off + len, n - 1);
        Scanned(Asked(off, kind, name) + rest.found, rest.good, rest.off)
  }

  function Asked(off: nat, kind: Key, name: Key): seq<Found> {
    if kind == A_IN then [Found(off, name)] else []
  }

  // ---- Replies ----

  /** The address of an answer, with the name as a pointer to the question. */
  function Answer(at: nat, ip: nat): (r: Key)
    requires ip < 0x1_0000_0000
    ensures |r| == 16
  {
    [0xC0, at % 256, 0, 1, 0, 1, 0, 0, 0, 1, 0, 4] + Bytes32(ip)
  }

  function Answers(found: seq<Found>, ips: seq<nat>): (r: Key)
    requires |found| == |ips| && forall k | 0 <= k < |ips| :: ips[k] < 0x1_0000_0000
    ensures |r| == 16 * |found|
  {
    if found == [] then []
    else
      var n := |found| - 1;
      Answers(found[..n], ips[..n]) + Answer(found[n].at, ips[n])
  }

  /** QR is set, and RA is RD. */
  function FlagsHigh(hi: Byte): Byte {
    if hi < 128 then hi + 128 else hi
  }

  function FlagsLow(hi: Byte, lo: Byte): Byte {
    if hi % 2 == 1 && lo < 128 then lo + 128 else lo
  }

  function ReplyHeader(b: Key, n: nat): (r: Key)
    requires |b| >= HEADER && n < 0x1_0000
    ensures |r| == HEADER
  {
    b[..2] + [FlagsHigh(b[2]), FlagsLow(b[2], b[3])] + b[4..6] + Bytes16(n) + [0, 0, 0, 0]
  }

  // ---- Well-formed requests ----

  datatype Question = Question(labels: seq<Key>, kind: Key)

  /** Labels are not empty and hold no zero byte; type and class are two bytes each. */
  predicate Proper(q: Question) {
    q.labels != [] && |q.kind| == 4 && forall k | 0 <= k < |q.labels| :: ProperLabel(q.labels[k])
  }

  predicate ProperLabel(l: Key) {
    0 < |l| < 256 && forall k | 0 <= k < |l| :: l[k] != 0
  }

  predicate ProperLabels(ls: seq<Key>) {
    forall k | 0 <= k < |ls| :: ProperLabel(ls[k])
  }

  function NameBytes(ls: seq<Key>): Key
    requires ProperLabels(ls)
  {
    if ls == [] then [0] else [|ls[0]|] + ls[0] + NameBytes(ls[1..])
  }

  /** The labels, each after a dot. */
  function DotLabels(ls: seq<Key>): Key {
    if ls == [] then [] else [DOT] + ls[0] + DotLabels(ls[1..])
  }

  /** The labels joined by dots. */
  function DotName(ls: seq<Key>): Key
    requires ls != []
  {
    DotLabels(ls)[1..]
  }

  function QuestionBytes(q: Question): Key
    requires Proper(q)
  {
    NameBytes(q.labels) + q.kind
  }

  predicate AllProper(qs: seq<Question>) {
    forall k | 0 <= k < |qs| :: Proper(qs[k])
  }

  function Questions(qs: seq<Question>): Key
    requires AllProper(qs)
  {
    if qs == [] then [] else QuestionBytes(qs[0]) + Questions(qs[1..])
  }

  /** The A/IN questions with the places of their names, when the first question is at `off`. */
  function Wanted(qs: seq<Question>, off: nat): seq<Found>
    requires AllProper(qs)
  {
    if qs == [] then []
    else
      Asked(off, qs[0].kind, DotName(qs[0].labels)) + Wanted(qs[1..], off + |QuestionBytes(qs[0])|)
  }

  lemma {:induction false} LabelRead(s: Key, l: Key, rest: Key)
    requires ProperLabel(l) && rest != [] && s == [|l|] + l + rest
    ensures NameLen(s) == 1 + |l| + NameLen(rest) && Dotted(s) == [DOT] + l + Dotted(rest)
  {
    assert s[0] == |l| && s[1..1 + |l|] == l && s[1 + |l|..] == rest;
  }

  /** A name at the front of a message is read as it is. */
  lemma {:induction false} NameRead(ls: seq<Key>, c: Key)
    requires ProperLabels(ls)
    ensures NameLen(NameBytes(ls) + c) + 1 == |NameBytes(ls)| && Dotted(NameBytes(ls) + c) == DotLabels(ls)
    decreases |ls|
  {
    if ls != [] {
      var l, more := ls[0], NameBytes(ls[1..]);
      assert ProperLabel(l);
      NameRead(ls[1..], c);
      assert [|l|] + l + more + c == [|l|] + l + (more + c);
      LabelRead(NameBytes(ls) + c, l, more + c);
    }
  }

  lemma {:induction false} NoZero(ls: seq<Key>)
    requires ProperLabels(ls)
    ensures forall k | 0 <= k < |DotLabels(ls)| :: DotLabels(ls)[k] != 0
    decreases |ls|
  {
    if ls != [] {
      assert ProperLabel(ls[0]);
      NoZero(ls[1..]);
    }
  }

  lemma {:induction false} NameIs(s: Key, ls: seq<Key>)
    requires ProperLabels(ls) && ls != [] && Dotted(s) == DotLabels(ls)
    ensures Name(s) == DotName(ls)
  {
    NoZero(ls);
    var d := DotLabels(ls);
    UpToZeroIs(d[1..], |d| - 1);
    assert d[1..][..|d| - 1] == d[1..];
  }

  lemma {:induction false} QuestionRead(s: Key, q: Question, c: Key)
    requires Proper(q) && s == QuestionBytes(q) + c
    ensures First(s) == Front(|QuestionBytes(q)|, q.kind, DotName(q.labels)) && s[|QuestionBytes(q)|..] == c
  {
    var nb := NameBytes(q.labels);
    assert s == nb + (q.kind + c);
    NameRead(q.labels, q.kind + c);
    NameIs(s, q.labels);
    assert s[|nb|..|nb| + 4] == q.kind;
  }

  lemma {:induction false} ScanStep(s: Key, off: nat, n: nat, f: Front, rest: Scanned)
    requires First(s) == f && f.Front? && n > 0 && Scan(s[f.len..], off + f.len, n - 1) == rest
    ensures Scan(s, off, n) == Scanned(Asked(off, f.kind, f.name) + rest.found, rest.good, rest.off)
  {}

  /** Well-formed questions are found as they are, whatever follows them. */
  lemma {:induction false} ScanProper(qs: seq<Question>, c: Key, off: nat, n: nat, end: nat)
    requires AllProper(qs) && n == |qs| && end == off + |Questions(qs)|
    ensures Scan(Questions(qs) + c, off, n) == Scanned(Wanted(qs, off), true, end)
    decreases |qs|
  {
    if qs != [] {
      var q, more := qs[0], qs[1..];
      var s, len := Questions(qs) + c, |QuestionBytes(q)|;
      assert s == QuestionBytes(q) + (Questions(more) + c);
      QuestionRead(s, q, Questions(more) + c);
      ScanProper(more, c, off + len, n - 1, end);
      ScanStep(s, off, n, Front(len, q.kind, DotName(q.labels)), Scanned(Wanted(more, off + len), true, end));
    }
  }
}
