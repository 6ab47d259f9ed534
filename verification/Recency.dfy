/** What the mapped-DNS cache promises, without its data structures: names in order of last use, at most
    `max` of them, each with a slot that it keeps until it is evicted. */
module Recency {
  import opened Options

  datatype Cache<K(==)> = Cache(live: seq<K>, slot: map<K, nat>)

  datatype Op<K> = Find(name: K) | Lookup(slot: nat)

  function IndexOf<K(==)>(s: seq<K>, n: K): (i: nat)
    requires n in s
    ensures i < |s| && s[i] == n
  {
    if s[0] == n then 0 else 1 + IndexOf(s[1..], n)
  }

  function Drop<K(==)>(s: seq<K>, i: nat): seq<K>
    requires i < |s|
  {
    s[..i] + s[i + 1..]
  }

  /** `n` moves, or comes, to the end. */
  function Touch<K(==)>(s: seq<K>, n: K): seq<K> {
    (if n in s then Drop(s, IndexOf(s, n)) else s) + [n]
  }

  ghost predicate Distinct<K>(s: seq<K>) {
    forall i, j | 0 <= i < j < |s| :: s[i] != s[j]
  }

  /** The name that has a slot, if any. */
  ghost function NameAt<K(!new)>(c: Cache<K>, i: nat): (r: Option<K>)
    ensures r.Some? ==> r.value in c.slot && c.slot[r.value] == i
    ensures r.None? ==> forall n | n in c.slot :: c.slot[n] != i
  {
    if n :| n in c.slot && c.slot[n] == i then Some(n) else None
  }

  ghost function Step<K(!new)>(max: nat, c: Cache<K>, op: Op<K>): (Cache<K>, Option<K>)
    requires Wellformed(max, c) && max > 0
  {
    match op
    case Find(n) =>
      if n in c.live then (c.(live := Touch(c.live, n)), Some(n))
      else if |c.live| < max then (Cache(c.live + [n], c.slot[n := |c.live|]), Some(n))
      else var out := c.live[0];
        (Cache(c.live[1..] + [n], (c.slot - {out})[n := c.slot[out]]), Some(n))
    case Lookup(i) =>
      match NameAt(c, i)
      case None => (c, None)
      case Some(n) => (c.(live := Touch(c.live, n)), Some(n))
  }

  /** Live names and the first slots are in bijection. */
  ghost predicate Wellformed<K(!new)>(max: nat, c: Cache<K>) {
    && Distinct(c.live) && |c.live| <= max
    && (forall n :: n in c.live <==> n in c.slot)
    && (forall n | n in c.slot :: c.slot[n] < |c.live|)
    && (forall n, n' | n in c.slot && n' in c.slot && c.slot[n] == c.slot[n'] :: n == n')
  }

  lemma {:induction false} TouchLive<K(!new)>(s: seq<K>, n: K)
    requires Distinct(s)
    ensures Distinct(Touch(s, n)) && |Touch(s, n)| == (if n in s then |s| else |s| + 1)
    ensures forall m :: m in Touch(s, n) <==> m in s || m == n
  {
    if n in s {
      DropLive(s, IndexOf(s, n));
    }
  }

  lemma {:induction false} DropLive<K(!new)>(s: seq<K>, i: nat)
    requires Distinct(s) && i < |s|
    ensures Distinct(Drop(s, i)) && |Drop(s, i)| == |s| - 1
    ensures forall m :: m in Drop(s, i) <==> m in s && m != s[i]
  {
    var t := Drop(s, i);
    assert forall j | 0 <= j < |t| :: t[j] == if j < i then s[j] else s[j + 1];
    forall m | m in s && m != s[i] ensures m in t {
      var j :| 0 <= j < |s| && s[j] == m;
      assert j < i ==> t[j] == m;
      assert j > i ==> t[j - 1] == m;
    }
  }

  lemma {:induction false} StepWellformed<K(!new)>(max: nat, c: Cache<K>, op: Op<K>)
    requires Wellformed(max, c) && max > 0
    ensures Wellformed(max, Step(max, c, op).0)
  {
    match op
    case Find(n) =>
      if n in c.live {
        TouchLive(c.live, n);
      } else if |c.live| == max {
        var live := c.live[1..] + [n];
        forall m ensures m in live <==> (m in c.live && m != c.live[0]) || m == n {
          if m in c.live && m != c.live[0] {
            var j :| 0 <= j < |c.live| && c.live[j] == m;
            assert live[j - 1] == m;
          }
        }
      }
    case Lookup(i) =>
      if NameAt(c, i).Some? {
        TouchLive(c.live, NameAt(c, i).value);
      }
  }

  // ---- Whole runs ----

  /** The state after a run from `c`, and the names it touched, in order. */
  ghost function RunFrom<K(!new)>(max: nat, c: Cache<K>, ops: seq<Op<K>>): (r: (Cache<K>, seq<K>))
    requires max > 0 && Wellformed(max, c)
    ensures Wellformed(max, r.0)
  {
    if ops == [] then (c, [])
    else
      var (c, trace) := RunFrom(max, c, ops[..|ops| - 1]);
      StepWellformed(max, c, ops[|ops| - 1]);
      var (c', touched) := Step(max, c, ops[|ops| - 1]);
      (c', if touched.Some? then trace + [touched.value] else trace)
  }

  ghost function Run<K(!new)>(max: nat, ops: seq<Op<K>>): (Cache<K>, seq<K>)
    requires max > 0
  {
    RunFrom(max, Cache([], map[]), ops)
  }

  /** The distinct names of a trace, in order of their last occurrence. */
  function ByLastUse<K(==)>(trace: seq<K>): seq<K> {
    if trace == [] then [] else Touch(ByLastUse(trace[..|trace| - 1]), trace[|trace| - 1])
  }

  function Last<T>(s: seq<T>, k: nat): seq<T> {
    if k >= |s| then s else s[|s| - k..]
  }

  lemma {:induction false} ByLastUseDistinct<K(!new)>(trace: seq<K>)
    ensures Distinct(ByLastUse(trace))
  {
    if trace != [] {
      ByLastUseDistinct(trace[..|trace| - 1]);
      TouchLive(ByLastUse(trace[..|trace| - 1]), trace[|trace| - 1]);
    }
  }

  lemma {:induction false} IndexIs<K>(s: seq<K>, n: K, i: nat)
    requires Distinct(s) && i < |s| && s[i] == n
    ensures IndexOf(s, n) == i
  {}

  lemma {:induction false} DropRight<K>(a: seq<K>, l: seq<K>, j: nat)
    requires j < |l|
    ensures Drop(a + l, |a| + j) == a + Drop(l, j)
  {}

  lemma {:induction false} DropLeft<K>(a: seq<K>, l: seq<K>, i: nat)
    requires i < |a|
    ensures Drop(a + l, i) == Drop(a, i) + l
  {}

  lemma {:induction false} TouchRight<K>(a: seq<K>, l: seq<K>, n: K)
    requires Distinct(a + l) && n in l
    ensures Touch(a + l, n) == a + Touch(l, n)
  {
    var j := IndexOf(l, n);
    IndexIs(a + l, n, |a| + j);
    DropRight(a, l, j);
    assert a + Drop(l, j) + [n] == a + (Drop(l, j) + [n]);
  }

  lemma {:induction false} TouchLeft<K>(a: seq<K>, l: seq<K>, n: K)
    requires Distinct(a + l) && n in a
    ensures Touch(a + l, n) == Drop(a, IndexOf(a, n)) + (l + [n])
  {
    var i := IndexOf(a, n);
    IndexIs(a + l, n, i);
    DropLeft(a, l, i);
    assert Drop(a, i) + l + [n] == Drop(a, i) + (l + [n]);
  }

  lemma {:induction false} LastOf<K>(a: seq<K>, x: seq<K>, k: nat)
    requires |x| == k || (a == [] && |x| <= k)
    ensures Last(a + x, k) == x
  {}

  /** Touching a name commutes with keeping only the last `max` names. */
  lemma {:induction false} TouchLast<K>(a: seq<K>, l: seq<K>, n: K, max: nat)
    requires Distinct(a + l) && max > 0 && (|l| == max || (a == [] && |l| <= max))
    ensures Last(Touch(a + l, n), max) ==
            if n in l then Touch(l, n) else if |l| < max then l + [n] else l[1..] + [n]
  {
    if n in l {
      TouchRight(a, l, n);
      LastOf(a, Touch(l, n), max);
    } else if n in a {
      TouchLeft(a, l, n);
      LastPush(Drop(a, IndexOf(a, n)), l, n, max);
    } else {
      assert a + l + [n] == a + (l + [n]);
      LastPush(a, l, n, max);
    }
  }

  lemma {:induction false} LastPush<K>(b: seq<K>, l: seq<K>, n: K, max: nat)
    requires max > 0 && (|l| == max || (b == [] && |l| <= max))
    ensures Last(b + (l + [n]), max) == if |l| < max then l + [n] else l[1..] + [n]
  {
    if |l| < max {
      LastOf(b, l + [n], max);
    } else {
      assert b + (l + [n]) == (b + [l[0]]) + (l[1..] + [n]);
      LastOf(b + [l[0]], l[1..] + [n], max);
    }
  }

  lemma {:induction false} KeepLast<K>(r: seq<K>, n: K, max: nat)
    requires Distinct(r) && max > 0
    ensures var l := Last(r, max);
            Last(Touch(r, n), max) == if n in l then Touch(l, n) else if |l| < max then l + [n] else l[1..] + [n]
  {
    var l := Last(r, max);
    assert r == r[..|r| - |l|] + l;
    TouchLast(r[..|r| - |l|], l, n, max);
  }

  lemma {:induction false} StepLive<K(!new)>(max: nat, c: Cache<K>, op: Op<K>)
    requires Wellformed(max, c) && max > 0
    ensures var (c', touched) := Step(max, c, op);
            c'.live == match touched
              case None => c.live
              case Some(n) =>
                if n in c.live then Touch(c.live, n)
                else if |c.live| < max then c.live + [n]
                else c.live[1..] + [n]
  {}

  /** After any run the live names are the `max` most recently used distinct ones, in order of last use. */
  lemma {:induction false} LiveAreMostRecent<K(!new)>(max: nat, ops: seq<Op<K>>)
    requires max > 0
    ensures Run(max, ops).0.live == Last(ByLastUse(Run(max, ops).1), max)
  {
    if ops != [] {
      var init, op := ops[..|ops| - 1], ops[|ops| - 1];
      LiveAreMostRecent(max, init);
      var (c, trace) := Run(max, init);
      StepLive(max, c, op);
      var touched := Step(max, c, op).1;
      if touched.Some? {
        ByLastUseDistinct(trace);
        KeepLast(ByLastUse(trace), touched.value, max);
        assert (trace + [touched.value])[..|trace|] == trace;
      }
    }
  }

  // ---- How long a name lives ----

  lemma {:induction false} ByLastUseSnoc<K>(t: seq<K>, m: K)
    ensures ByLastUse(t + [m]) == Touch(ByLastUse(t), m)
  {
    assert (t + [m])[..|t|] == t;
  }

  lemma {:induction false} UsesSince<K(!new)>(t: seq<K>, n: K, since: seq<K>) returns (p: seq<K>)
    requires n !in since
    ensures ByLastUse(t + [n] + since) == p + [n] + ByLastUse(since)
  {
    if since == [] {
      ByLastUseSnoc(t, n);
      var r := ByLastUse(t);
      p := if n in r then Drop(r, IndexOf(r, n)) else r;
      assert t + [n] + since == t + [n];
      assert p + [n] + ByLastUse(since) == p + [n];
    } else {
      var init, m := since[..|since| - 1], since[|since| - 1];
      var p' := UsesSince(t, n, init);
      assert t + [n] + since == (t + [n] + init) + [m];
      assert since == init + [m];
      ByLastUseSnoc(t + [n] + init, m);
      ByLastUseSnoc(init, m);
      ByLastUseDistinct(t + [n] + init);
      p := UseAfter(p', n, ByLastUse(init), m);
    }
  }

  /** One more use of another name leaves `n` where it is among the later names. */
  lemma {:induction false} UseAfter<K(!new)>(p: seq<K>, n: K, b: seq<K>, m: K) returns (p': seq<K>)
    requires Distinct(p + [n] + b) && m != n
    ensures Touch(p + [n] + b, m) == p' + [n] + Touch(b, m)
  {
    p' := p;
    if m in b {
      TouchRight(p + [n], b, m);
    } else if m in p {
      var i := IndexOf(p, m);
      p' := Drop(p, i);
      assert p + [n] + b == p + ([n] + b);
      TouchLeft(p, [n] + b, m);
      assert Drop(p, i) + ([n] + b + [m]) == Drop(p, i) + [n] + (b + [m]);
    } else {
      assert m !in p + [n] + b;
      assert p + [n] + b + [m] == p + [n] + (b + [m]);
    }
  }

  /** A name is live exactly as long as fewer than `max` other names were used since its last use. */
  lemma {:induction false} LivesUntilMaxOthers<K(!new)>(max: nat, ops: seq<Op<K>>, t: seq<K>, n: K, since: seq<K>)
    requires max > 0 && Run(max, ops).1 == t + [n] + since && n !in since
    ensures n in Run(max, ops).0.live <==> |ByLastUse(since)| < max
  {
    LiveAreMostRecent(max, ops);
    var p := UsesSince(t, n, since);
    var b := ByLastUse(since);
    ByLastUseDistinct(t + [n] + since);
    var r := p + [n] + b;
    assert r[|p|] == n;
    assert |b| < max ==> Last(r, max)[|Last(r, max)| - |b| - 1] == n;
  }

  /** The names of `ByLastUse` are those of the trace, so its length counts the distinct ones. */
  lemma {:induction false} ByLastUseNames<K(!new)>(trace: seq<K>)
    ensures forall n :: n in ByLastUse(trace) <==> n in trace
  {
    if trace != [] {
      var init, m := trace[..|trace| - 1], trace[|trace| - 1];
      ByLastUseNames(init);
      ByLastUseDistinct(init);
      TouchLive(ByLastUse(init), m);
      assert trace == init + [m];
    }
  }

  ghost predicate LiveThroughout<K(!new)>(max: nat, c: Cache<K>, ops: seq<Op<K>>, n: K)
    requires max > 0 && Wellformed(max, c)
  {
    forall k | 0 <= k <= |ops| :: n in RunFrom(max, c, ops[..k]).0.live
  }

  /** A find of `n` keeps `n` live throughout what follows. */
  ghost predicate StaysFound<K(!new)>(max: nat, c: Cache<K>, n: K, ops: seq<Op<K>>)
    requires max > 0 && Wellformed(max, c)
  {
    StepWellformed(max, c, Find(n));
    LiveThroughout(max, Step(max, c, Find(n)).0, ops, n)
  }

  lemma {:induction false} SlotKept<K(!new)>(max: nat, c: Cache<K>, ops: seq<Op<K>>, n: K)
    requires max > 0 && Wellformed(max, c) && LiveThroughout(max, c, ops, n)
    ensures n in c.slot && n in RunFrom(max, c, ops).0.slot && RunFrom(max, c, ops).0.slot[n] == c.slot[n]
  {
    assert n in RunFrom(max, c, ops[..0]).0.live;
    assert ops[..|ops|] == ops;
    assert n in RunFrom(max, c, ops[..|ops|]).0.live;
    if ops != [] {
      var init := ops[..|ops| - 1];
      forall k | 0 <= k <= |init| ensures n in RunFrom(max, c, init[..k]).0.live {
        assert init[..k] == ops[..k];
      }
      SlotKept(max, c, init, n);
    }
  }

  /** From a find of `n` on, a lookup of the slot it returned yields `n` for as long as `n` is live. */
  lemma {:induction false} LookupFindsName<K(!new)>(max: nat, c: Cache<K>, n: K, ops: seq<Op<K>>)
    requires max > 0 && Wellformed(max, c)
    requires var c' := Step(max, c, Find(n)).0; Wellformed(max, c') && LiveThroughout(max, c', ops, n)
    ensures var c' := Step(max, c, Find(n)).0;
            n in c'.slot && Step(max, RunFrom(max, c', ops).0, Lookup(c'.slot[n])).1 == Some(n)
  {
    SlotKept(max, Step(max, c, Find(n)).0, ops, n);
  }

  // ---- How few other names keep a name alive ----

  function Noted<K>(t: seq<K>, touched: Option<K>): seq<K> {
    if touched.Some? then t + [touched.value] else t
  }

  lemma {:induction false} RunNext<K(!new)>(max: nat, c: Cache<K>, ops: seq<Op<K>>, c1: Cache<K>, t: seq<K>)
    requires max > 0 && Wellformed(max, c) && ops != [] && RunFrom(max, c, ops[..|ops| - 1]) == (c1, t)
    ensures Wellformed(max, c1)
    ensures var (c2, touched) := Step(max, c1, ops[|ops| - 1]); RunFrom(max, c, ops) == (c2, Noted(t, touched))
  {}

  lemma {:induction false} NotedAppend<K>(s: seq<K>, t: seq<K>, touched: Option<K>)
    ensures Noted(s + t, touched) == s + Noted(t, touched)
  {
    assert touched.Some? ==> s + t + [touched.value] == s + (t + [touched.value]);
  }

  lemma {:induction false} RunAppend<K(!new)>(max: nat, c: Cache<K>, a: seq<Op<K>>, b: seq<Op<K>>)
    requires max > 0 && Wellformed(max, c)
    ensures var (c', s) := RunFrom(max, c, a); var (c'', t) := RunFrom(max, c', b);
            RunFrom(max, c, a + b) == (c'', s + t)
    decreases |b|
  {
    var (c', s) := RunFrom(max, c, a);
    if b == [] {
      assert a + b == a;
      assert s + [] == s;
    } else {
      var n := |b| - 1;
      var (c1, t) := RunFrom(max, c', b[..n]);
      assert (a + b)[..|a + b| - 1] == a + b[..n];
      RunAppend(max, c, a, b[..n]);
      RunNext(max, c', b, c1, t);
      RunNext(max, c, a + b, c1, s + t);
      NotedAppend(s, t, Step(max, c1, b[n]).1);
    }
  }

  lemma {:induction false} LastUse<K>(t: seq<K>, n: K) returns (p: seq<K>, since: seq<K>)
    requires n in t
    ensures t == p + [n] + since && n !in since
    decreases |t|
  {
    var k := |t| - 1;
    if t[k] == n {
      p, since := t[..k], [];
    } else {
      p, since := LastUse(t[..k], n);
      since := since + [t[k]];
    }
  }

  ghost function NamesOf<K>(t: seq<K>): set<K> {
    set n | n in t
  }

  lemma {:induction false} DistinctCount<K>(s: seq<K>)
    requires Distinct(s)
    ensures |s| == |NamesOf(s)|
    decreases |s|
  {
    if s == [] {
      assert NamesOf(s) == {};
    } else {
      var n := |s| - 1;
      DistinctCount(s[..n]);
      assert s == s[..n] + [s[n]];
      assert s[n] !in s[..n];
      assert NamesOf(s) == NamesOf(s[..n]) + {s[n]};
    }
  }

  lemma {:induction false} Fewer<K>(a: set<K>, b: set<K>)
    requires a <= b
    ensures |a| <= |b|
  {
    assert b == a + (b - a);
  }

  lemma {:induction false} UseCount<K(!new)>(since: seq<K>, others: set<K>)
    requires NamesOf(since) <= others
    ensures |ByLastUse(since)| <= |others|
  {
    ByLastUseDistinct(since);
    ByLastUseNames(since);
    DistinctCount(ByLastUse(since));
    Fewer(NamesOf(ByLastUse(since)), others);
  }

  /** A name is live after a run that ends with its use followed by uses of fewer than `max` other names. */
  lemma {:induction false} LiveAfter<K(!new)>(max: nat, ops: seq<Op<K>>, t: seq<K>, n: K, u: seq<K>)
    requires max > 0 && Run(max, ops).1 == t + [n] + u && |NamesOf(u) - {n}| < max
    ensures n in Run(max, ops).0.live
  {
    assert ([n] + u)[0] == n;
    var p, since := LastUse([n] + u, n);
    assert t + [n] + u == t + ([n] + u);
    assert t + (p + [n] + since) == (t + p) + [n] + since;
    assert |since| <= |u|;
    assert since == ([n] + u)[|p| + 1..] == u[|p|..];
    UseCount(since, NamesOf(u) - {n});
    LivesUntilMaxOthers(max, ops, t + p, n, since);
  }

  /** From a find of `n` on, `n` stays live while fewer than `max` other names are used. */
  lemma {:induction false} StaysWhileFew<K(!new)>(max: nat, before: seq<Op<K>>, n: K, ops: seq<Op<K>>)
    requires max > 0
    requires var c := Step(max, Run(max, before).0, Find(n)).0;
             Wellformed(max, c) && |NamesOf(RunFrom(max, c, ops).1) - {n}| < max
    ensures LiveThroughout(max, Step(max, Run(max, before).0, Find(n)).0, ops, n)
  {
    var c := Step(max, Run(max, before).0, Find(n)).0;
    FindRuns(max, before, n);
    forall k | 0 <= k <= |ops| ensures n in RunFrom(max, c, ops[..k]).0.live {
      var u := RunFrom(max, c, ops[..k]).1;
      assert ops == ops[..k] + ops[k..];
      RunAppend(max, c, ops[..k], ops[k..]);
      Fewer(NamesOf(u) - {n}, NamesOf(RunFrom(max, c, ops).1) - {n});
      RunAppend(max, Cache([], map[]), before + [Find(n)], ops[..k]);
      LiveAfter(max, before + [Find(n)] + ops[..k], Run(max, before).1, n, u);
    }
  }

  lemma {:induction false} FindRuns<K(!new)>(max: nat, before: seq<Op<K>>, n: K)
    requires max > 0
    ensures Run(max, before + [Find(n)]) == (Step(max, Run(max, before).0, Find(n)).0, Run(max, before).1 + [n])
  {
    assert (before + [Find(n)])[..|before|] == before;
  }
}
