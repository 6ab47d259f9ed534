/** Document graphs, and the walk over them that the dumper takes twice: once to count references and once
    to issue events.  Nodes are numbered from 1; sharing and cycles are allowed. */
module YamlGraph {
  datatype Pair = Pair(key: nat, value: nat)

  datatype Node =
    | ScalarNode(tag: string, text: string, style: nat)
    | SequenceNode(tag: string, items: seq<nat>, style: nat)
    | MappingNode(tag: string, pairs: seq<Pair>, style: nat)

  type Document = seq<Node>

  /** Keys and values in document order. */
  function Flatten(pairs: seq<Pair>): seq<nat> {
    if pairs == [] then []
    else var p := pairs[|pairs| - 1]; Flatten(pairs[..|pairs| - 1]) + [p.key, p.value]
  }

  function Children(n: Node): seq<nat> {
    match n
    case ScalarNode(_, _, _) => []
    case SequenceNode(_, items, _) => items
    case MappingNode(_, pairs, _) => Flatten(pairs)
  }

  ghost predicate AllWithin(s: seq<nat>, n: nat) {
    forall k | 0 <= k < |s| :: 1 <= s[k] <= n
  }

  /** Every child index names a node. */
  ghost predicate InRange(doc: Document) {
    forall i | 0 <= i < |doc| :: AllWithin(Children(doc[i]), |doc|)
  }

  ghost predicate Distinct(s: seq<nat>) {
    forall i, j {:trigger ApartAt(s, i, j)} | 0 <= i < j < |s| :: ApartAt(s, i, j)
  }

  ghost predicate ApartAt(s: seq<nat>, i: int, j: int)
    requires 0 <= i < j < |s|
  {
    s[i] != s[j]
  }

  lemma {:induction false} DistinctSnoc(s: seq<nat>, x: nat)
    requires Distinct(s) && x !in s
    ensures Distinct(s + [x])
  {
    forall i, j | 0 <= i < j < |s + [x]| ensures ApartAt(s + [x], i, j) {
      assert j < |s| ==> ApartAt(s, i, j);
    }
  }

  /** Distinct node numbers: the nodes met so far, in the order of the first meeting. */
  ghost predicate Met(doc: Document, ord: seq<nat>) {
    Distinct(ord) && AllWithin(ord, |doc|)
  }

  ghost function Unmet(doc: Document, ord: seq<nat>): set<nat> {
    set j: nat | 1 <= j <= |doc| && j !in ord
  }

  lemma {:induction false} MeetNew(doc: Document, ord: seq<nat>, i: nat)
    requires Met(doc, ord) && 1 <= i <= |doc| && i !in ord
    ensures Met(doc, ord + [i]) && Unmet(doc, ord + [i]) < Unmet(doc, ord)
  {
    DistinctSnoc(ord, i);
    assert i in Unmet(doc, ord) && i !in Unmet(doc, ord + [i]);
  }

  /** A node is entered the first time it is met, and left after its children if it is a collection;
      every later meeting is only noted. */
  datatype Step = Enter(node: nat) | Again(node: nat) | Leave(node: nat)

  datatype Walked = Walked(ord: seq<nat>, steps: seq<Step>)

  ghost function Walk(doc: Document, ord: seq<nat>, i: nat): (r: Walked)
    requires InRange(doc) && Met(doc, ord) && 1 <= i <= |doc|
    ensures ord <= r.ord && Met(doc, r.ord)
    decreases Unmet(doc, ord), 1
  {
    if i in ord then Walked(ord, [Again(i)])
    else
      var r := Inner(doc, ord, i);
      Walked(r.ord, [Enter(i)] + r.steps + (if doc[i - 1].ScalarNode? then [] else [Leave(i)]))
  }

  /** The walk over the children of a node met for the first time. */
  ghost function Inner(doc: Document, ord: seq<nat>, i: nat): (r: Walked)
    requires InRange(doc) && Met(doc, ord) && 1 <= i <= |doc| && i !in ord
    ensures ord + [i] <= r.ord && Met(doc, r.ord)
    decreases Unmet(doc, ord), 0
  {
    MeetNew(doc, ord, i);
    WalkAll(doc, ord + [i], Children(doc[i - 1]))
  }

  ghost function WalkAll(doc: Document, ord: seq<nat>, s: seq<nat>): (r: Walked)
    requires InRange(doc) && Met(doc, ord) && AllWithin(s, |doc|)
    ensures ord <= r.ord && Met(doc, r.ord)
    decreases Unmet(doc, ord), 2 + |s|
  {
    if s == [] then Walked(ord, [])
    else
      var n := |s| - 1;
      var a := WalkAll(doc, ord, s[..n]);
      assert Unmet(doc, a.ord) <= Unmet(doc, ord);
      var b := Walk(doc, a.ord, s[n]);
      Walked(b.ord, a.steps + b.steps)
  }

  lemma {:induction false} WalkScalar(doc: Document, ord: seq<nat>, i: nat)
    requires InRange(doc) && Met(doc, ord) && 1 <= i <= |doc| && i !in ord && doc[i - 1].ScalarNode?
    ensures Walk(doc, ord, i) == Walked(ord + [i], [Enter(i)])
  {
    assert Inner(doc, ord, i) == Walked(ord + [i], []);
    assert [Enter(i)] + [] + [] == [Enter(i)];
  }

  // ---- What the walk reaches ----

  ghost predicate AllIn(s: seq<nat>, ord: seq<nat>) {
    forall k | 0 <= k < |s| :: s[k] in ord
  }

  lemma {:induction false} AllInGrows(s: seq<nat>, a: seq<nat>, b: seq<nat>)
    requires AllIn(s, a) && a <= b
    ensures AllIn(s, b)
  {
    assert forall x | x in a :: x in b;
  }

  lemma {:induction false} WalkReaches(doc: Document, ord: seq<nat>, i: nat)
    requires InRange(doc) && Met(doc, ord) && 1 <= i <= |doc|
    ensures i in Walk(doc, ord, i).ord
  {
    if i !in ord {
      assert (ord + [i])[|ord|] == i;
      AllInGrows([i], ord + [i], Walk(doc, ord, i).ord);
      assert [i][0] == i;
    }
  }

  lemma {:induction false} WalkAllReaches(doc: Document, ord: seq<nat>, s: seq<nat>)
    requires InRange(doc) && Met(doc, ord) && AllWithin(s, |doc|)
    ensures AllIn(s, WalkAll(doc, ord, s).ord)
    decreases |s|
  {
    if s != [] {
      var n := |s| - 1;
      var a := WalkAll(doc, ord, s[..n]);
      WalkAllReaches(doc, ord, s[..n]);
      WalkReaches(doc, a.ord, s[n]);
      AllInGrows(s[..n], a.ord, WalkAll(doc, ord, s).ord);
      assert forall k | 0 <= k < n :: s[k] == s[..n][k];
    }
  }

  ghost predicate ChildrenIn(doc: Document, i: nat, s: seq<nat>) {
    1 <= i <= |doc| && AllIn(Children(doc[i - 1]), s)
  }

  /** A set of nodes that no child index leads out of. */
  ghost predicate Closed(doc: Document, s: set<nat>) {
    forall i | i in s && 1 <= i <= |doc| :: forall c | c in Children(doc[i - 1]) :: c in s
  }

  lemma {:induction false} ChildrenGrow(doc: Document, i: nat, s: seq<nat>, t: seq<nat>)
    requires ChildrenIn(doc, i, s) && s <= t
    ensures ChildrenIn(doc, i, t)
  {
    AllInGrows(Children(doc[i - 1]), s, t);
  }

  /** Every node met by the walk has all its children met too. */
  lemma {:induction false} WalkCloses(doc: Document, ord: seq<nat>, i: nat, j: nat)
    requires InRange(doc) && Met(doc, ord) && 1 <= i <= |doc| && j !in ord && j in Walk(doc, ord, i).ord
    ensures ChildrenIn(doc, j, Walk(doc, ord, i).ord)
    decreases Unmet(doc, ord), 0
  {
    MeetNew(doc, ord, i);
    if i != j {
      WalkAllCloses(doc, ord + [i], Children(doc[i - 1]), j);
    } else {
      WalkAllReaches(doc, ord + [i], Children(doc[i - 1]));
    }
  }

  lemma {:induction false} WalkAllCloses(doc: Document, ord: seq<nat>, s: seq<nat>, j: nat)
    requires InRange(doc) && Met(doc, ord) && AllWithin(s, |doc|) && j !in ord && j in WalkAll(doc, ord, s).ord
    ensures ChildrenIn(doc, j, WalkAll(doc, ord, s).ord)
    decreases Unmet(doc, ord), 1 + |s|
  {
    var n := |s| - 1;
    var a := WalkAll(doc, ord, s[..n]);
    if j in a.ord {
      WalkAllCloses(doc, ord, s[..n], j);
      ChildrenGrow(doc, j, a.ord, WalkAll(doc, ord, s).ord);
    } else {
      assert Unmet(doc, a.ord) <= Unmet(doc, ord);
      WalkCloses(doc, a.ord, s[n], j);
    }
  }

  /** The walk meets nothing that is not reachable: it stays in every closed set that it starts in. */
  lemma {:induction false} WalkStays(doc: Document, ord: seq<nat>, i: nat, s: set<nat>, j: nat)
    requires InRange(doc) && Met(doc, ord) && 1 <= i <= |doc| && Closed(doc, s) && i in s
    requires j !in ord && j in Walk(doc, ord, i).ord
    ensures j in s
    decreases Unmet(doc, ord), 0
  {
    MeetNew(doc, ord, i);
    if i != j {
      WalkAllStays(doc, ord + [i], Children(doc[i - 1]), s, j);
    }
  }

  lemma {:induction false} WalkAllStays(doc: Document, ord: seq<nat>, t: seq<nat>, s: set<nat>, j: nat)
    requires InRange(doc) && Met(doc, ord) && AllWithin(t, |doc|) && Closed(doc, s) && forall c | c in t :: c in s
    requires j !in ord && j in WalkAll(doc, ord, t).ord
    ensures j in s
    decreases Unmet(doc, ord), 1 + |t|
  {
    var n := |t| - 1;
    var a := WalkAll(doc, ord, t[..n]);
    if j in a.ord {
      WalkAllStays(doc, ord, t[..n], s, j);
    } else {
      assert Unmet(doc, a.ord) <= Unmet(doc, ord);
      WalkStays(doc, a.ord, t[n], s, j);
    }
  }

  // ---- How often the walk meets a node ----

  function Meets(s: Step, i: nat): nat {
    if s.Leave? || s.node != i then 0 else 1
  }

  function Count(steps: seq<Step>, i: nat): nat {
    if steps == [] then 0 else Meets(steps[0], i) + Count(steps[1..], i)
  }

  lemma {:induction false} CountAppend(s: seq<Step>, t: seq<Step>, i: nat)
    ensures Count(s + t, i) == Count(s, i) + Count(t, i)
  {
    if s == [] {
      assert s + t == t;
    } else {
      assert (s + t)[1..] == s[1..] + t;
      CountAppend(s[1..], t, i);
    }
  }

  /** A node is met by the end of a walk exactly if it was met before or on the walk. */
  lemma {:induction false} WalkMeets(doc: Document, ord: seq<nat>, i: nat, j: nat)
    requires InRange(doc) && Met(doc, ord) && 1 <= i <= |doc|
    ensures var r := Walk(doc, ord, i); j in r.ord <==> j in ord || Count(r.steps, j) > 0
    decreases Unmet(doc, ord), 0
  {
    if i !in ord {
      MeetNew(doc, ord, i);
      var r := WalkAll(doc, ord + [i], Children(doc[i - 1]));
      WalkAllMeets(doc, ord + [i], Children(doc[i - 1]), j);
      var tail := if doc[i - 1].ScalarNode? then [] else [Leave(i)];
      CountAppend([Enter(i)] + r.steps, tail, j);
      CountAppend([Enter(i)], r.steps, j);
    }
  }

  lemma {:induction false} WalkAllMeets(doc: Document, ord: seq<nat>, s: seq<nat>, j: nat)
    requires InRange(doc) && Met(doc, ord) && AllWithin(s, |doc|)
    ensures var r := WalkAll(doc, ord, s); j in r.ord <==> j in ord || Count(r.steps, j) > 0
    decreases Unmet(doc, ord), 1 + |s|
  {
    if s != [] {
      var n := |s| - 1;
      var a := WalkAll(doc, ord, s[..n]);
      WalkAllMeets(doc, ord, s[..n], j);
      assert Unmet(doc, a.ord) <= Unmet(doc, ord);
      WalkMeets(doc, a.ord, s[n], j);
      CountAppend(a.steps, Walk(doc, a.ord, s[n]).steps, j);
    }
  }

  lemma {:induction false} StepsGrow(doc: Document, ord: seq<nat>, s: seq<nat>, t: seq<nat>)
    requires InRange(doc) && Met(doc, ord) && AllWithin(t, |doc|) && s <= t
    ensures AllWithin(s, |doc|) && WalkAll(doc, ord, s).steps <= WalkAll(doc, ord, t).steps
    decreases |t|
  {
    if s != t {
      StepsGrow(doc, ord, s, t[..|t| - 1]);
    }
  }

  lemma {:induction false} CountGrows(s: seq<Step>, t: seq<Step>, i: nat)
    requires s <= t
    ensures Count(s, i) <= Count(t, i)
  {
    assert t == s + t[|s|..];
    CountAppend(s, t[|s|..], i);
  }
}
