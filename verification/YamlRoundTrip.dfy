/** Dumping a document graph and loading the events back gives the same graph, renumbered in the order in
    which the dumper first meets the nodes. */
module YamlRoundTrip {
  import opened Options
  import opened YamlEvents
  import opened YamlGraph
  import opened YamlNames
  import opened YamlDumper
  import opened YamlLoader

  /** The new number of a node, less one. */
  function Pos(ord: seq<nat>, i: nat): (k: nat)
    ensures i in ord ==> k < |ord| && ord[k] == i
  {
    if ord == [] || ord[0] == i then 0 else 1 + Pos(ord[1..], i)
  }

  lemma {:induction false} PosIs(ord: seq<nat>, i: nat, k: nat)
    requires Distinct(ord) && k < |ord| && ord[k] == i
    ensures i in ord && Pos(ord, i) == k
  {
    assert ord[k] in ord;
    var p := Pos(ord, i);
    assert p < k ==> ApartAt(ord, p, k);
    assert k < p ==> ApartAt(ord, k, p);
  }

  lemma {:induction false} PosStays(a: seq<nat>, b: seq<nat>, i: nat)
    requires a <= b && Distinct(b) && i in a
    ensures i in b && Pos(b, i) == Pos(a, i)
  {
    assert b[Pos(a, i)] == a[Pos(a, i)];
    PosIs(b, i, Pos(a, i));
  }

  function Positions(ord: seq<nat>, s: seq<nat>): (r: seq<nat>)
    ensures |r| == |s| && forall k | 0 <= k < |s| :: r[k] == Pos(ord, s[k]) + 1
  {
    seq(|s|, k requires 0 <= k < |s| => Pos(ord, s[k]) + 1)
  }

  lemma {:induction false} PositionsStay(a: seq<nat>, b: seq<nat>, s: seq<nat>)
    requires a <= b && Distinct(b) && AllIn(s, a)
    ensures AllIn(s, b) && Positions(b, s) == Positions(a, s)
  {
    forall k | 0 <= k < |s| ensures s[k] in b && Pos(b, s[k]) == Pos(a, s[k]) {
      PosStays(a, b, s[k]);
    }
  }

  lemma {:induction false} SplitIn(f: seq<nat>, a: nat, b: nat, ord: seq<nat>)
    requires AllIn(f + [a, b], ord)
    ensures AllIn(f, ord) && a in ord && b in ord
  {
    var g := f + [a, b];
    assert g[|f|] == a && g[|f| + 1] == b;
    assert forall k | 0 <= k < |f| :: f[k] == g[k];
  }

  lemma {:induction false} LastPairIn(pairs: seq<Pair>, ord: seq<nat>)
    requires pairs != [] && AllIn(Flatten(pairs), ord)
    ensures var n := |pairs| - 1; AllIn(Flatten(pairs[..n]), ord) && pairs[n].key in ord && pairs[n].value in ord
  {
    var n := |pairs| - 1;
    SplitIn(Flatten(pairs[..n]), pairs[n].key, pairs[n].value, ord);
  }

  function PairPositions(ord: seq<nat>, pairs: seq<Pair>): (r: seq<Pair>)
    ensures |r| == |pairs|
  {
    if pairs == [] then []
    else
      var n := |pairs| - 1;
      PairPositions(ord, pairs[..n]) + [Pair(Pos(ord, pairs[n].key) + 1, Pos(ord, pairs[n].value) + 1)]
  }

  /** A node with its children renumbered.  A tag "!" is read back as the default tag. */
  function Renamed(ord: seq<nat>, n: Node): Node {
    match n
    case ScalarNode(tag, text, style) => ScalarNode(TagOr(Some(tag), DEFAULT_SCALAR_TAG), text, style)
    case SequenceNode(tag, items, style) => SequenceNode(TagOr(Some(tag), DEFAULT_SEQUENCE_TAG), Positions(ord, items),
        style)
    case MappingNode(tag, pairs, style) => MappingNode(TagOr(Some(tag), DEFAULT_MAPPING_TAG),
        PairPositions(ord, pairs), style)
  }

  lemma {:induction false} PairPositionsStay(a: seq<nat>, b: seq<nat>, pairs: seq<Pair>)
    requires a <= b && Distinct(b) && AllIn(Flatten(pairs), a)
    ensures AllIn(Flatten(pairs), b) && PairPositions(b, pairs) == PairPositions(a, pairs)
    decreases |pairs|
  {
    PositionsStay(a, b, Flatten(pairs));
    if pairs != [] {
      var n := |pairs| - 1;
      LastPairIn(pairs, a);
      PairPositionsStay(a, b, pairs[..n]);
      PosStays(a, b, pairs[n].key);
      PosStays(a, b, pairs[n].value);
    }
  }

  lemma {:induction false} RenamedStays(a: seq<nat>, b: seq<nat>, n: Node)
    requires a <= b && Distinct(b) && AllIn(Children(n), a)
    ensures AllIn(Children(n), b) && Renamed(b, n) == Renamed(a, n)
  {
    PositionsStay(a, b, Children(n));
    if n.MappingNode? {
      PairPositionsStay(a, b, n.pairs);
    }
  }

  // ---- Filling a collection ----

  function AddChildren(n: Node, s: seq<nat>): (r: Node)
    requires !n.ScalarNode?
    ensures !r.ScalarNode?
  {
    if s == [] then n else AddChild(AddChildren(n, s[..|s| - 1]), s[|s| - 1])
  }

  lemma {:induction false} FillSequence(n: Node, s: seq<nat>)
    requires n.SequenceNode?
    ensures AddChildren(n, s) == n.(items := n.items + s)
    decreases |s|
  {
    if s != [] {
      FillSequence(n, s[..|s| - 1]);
      assert n.items + s[..|s| - 1] + [s[|s| - 1]] == n.items + s;
    } else {
      assert n.items + s == n.items;
    }
  }

  lemma {:induction false} AddTwo(n: Node, s: seq<nat>, p: nat, q: nat)
    requires !n.ScalarNode?
    ensures AddChildren(n, s + [p, q]) == AddChild(AddChild(AddChildren(n, s), p), q)
  {
    assert (s + [p, q])[..|s| + 1] == s + [p];
    assert (s + [p])[..|s|] == s;
  }

  lemma {:induction false} AddPair(n: Node, p: nat, q: nat)
    requires n.MappingNode? && Complete(n.pairs) && p != 0
    ensures AddChild(AddChild(n, p), q) == n.(pairs := n.pairs + [Pair(p, q)])
  {
    assert (n.pairs + [Pair(p, 0)])[..|n.pairs|] == n.pairs;
  }

  lemma {:induction false} FlattenLast(pairs: seq<Pair>)
    requires pairs != []
    ensures var m := |pairs| - 1; Flatten(pairs) == Flatten(pairs[..m]) + [pairs[m].key, pairs[m].value]
  {}

  lemma {:induction false} PositionsLast(ord: seq<nat>, pairs: seq<Pair>)
    requires pairs != []
    ensures var m := |pairs| - 1; var k, v := pairs[m].key, pairs[m].value;
      Positions(ord, Flatten(pairs)) == Positions(ord, Flatten(pairs[..m])) + [Pos(ord, k) + 1, Pos(ord, v) + 1]
  {
    var m := |pairs| - 1;
    FlattenLast(pairs);
    var f, g := Flatten(pairs[..m]), Flatten(pairs);
    assert g == f + [pairs[m].key, pairs[m].value];
  }

  lemma {:induction false} PairsComplete(ord: seq<nat>, pairs: seq<Pair>)
    ensures Complete(PairPositions(ord, pairs))
    decreases |pairs|
  {
    if pairs != [] {
      PairsComplete(ord, pairs[..|pairs| - 1]);
    }
  }

  lemma {:induction false} FillStep(n: Node, ps: seq<nat>, pairs: seq<Pair>, p: nat, q: nat)
    requires n.MappingNode? && AddChildren(n, ps) == n.(pairs := pairs) && Complete(pairs) && p != 0
    ensures AddChildren(n, ps + [p, q]) == n.(pairs := pairs + [Pair(p, q)])
  {
    AddTwo(n, ps, p, q);
    AddPair(AddChildren(n, ps), p, q);
  }

  lemma {:induction false} PairsLast(ord: seq<nat>, pairs: seq<Pair>)
    returns (ps: seq<nat>, qs: seq<Pair>, p: nat, q: nat)
    requires pairs != []
    ensures var m := |pairs| - 1; ps == Positions(ord, Flatten(pairs[..m])) && qs == PairPositions(ord, pairs[..m])
    ensures Positions(ord, Flatten(pairs)) == ps + [p, q] && PairPositions(ord, pairs) == qs + [Pair(p, q)]
    ensures Complete(qs) && p != 0
  {
    var m := |pairs| - 1;
    ps, qs := Positions(ord, Flatten(pairs[..m])), PairPositions(ord, pairs[..m]);
    p, q := Pos(ord, pairs[m].key) + 1, Pos(ord, pairs[m].value) + 1;
    PositionsLast(ord, pairs);
    PairsComplete(ord, pairs[..m]);
  }

  /** Renumbered keys and values, added one by one, make up the renumbered pairs. */
  lemma {:induction false} FillMapping(n: Node, ord: seq<nat>, pairs: seq<Pair>)
    requires n.MappingNode? && n.pairs == []
    ensures AddChildren(n, Positions(ord, Flatten(pairs))) == n.(pairs := PairPositions(ord, pairs))
    decreases |pairs|
  {
    if pairs != [] {
      FillMapping(n, ord, pairs[..|pairs| - 1]);
      var ps, qs, p, q := PairsLast(ord, pairs);
      FillStep(n, ps, qs, p, q);
    }
  }

  // ---- Anchors ----

  ghost predicate DistinctIds(ids: seq<nat>) {
    forall k, l {:trigger ClashFree(ids, k, l)} | 0 <= k < l < |ids| :: ClashFree(ids, k, l)
  }

  ghost predicate ClashFree(ids: seq<nat>, k: int, l: int)
    requires 0 <= k < l < |ids|
  {
    ids[k] != 0 ==> ids[k] != ids[l]
  }

  lemma {:induction false} SameId(ids: seq<nat>, k: nat, l: nat)
    requires DistinctIds(ids) && k < |ids| && l < |ids| && ids[k] != 0 && ids[k] == ids[l]
    ensures k == l
  {
    assert k < l ==> ClashFree(ids, k, l);
    assert l < k ==> ClashFree(ids, l, k);
  }

  /** What the loader has registered when the nodes of `ord` have been loaded. */
  ghost function Table(ids: seq<nat>, ord: seq<nat>): seq<AliasData>
    requires AllWithin(ord, |ids|)
  {
    if ord == [] then []
    else
      var n := |ord| - 1;
      var id := ids[ord[n] - 1];
      Table(ids, ord[..n]) + (if id == 0 then [] else [AliasData(AnchorName(id), n + 1)])
  }

  ghost predicate IsEntry(ids: seq<nat>, ord: seq<nat>, d: AliasData, m: nat)
    requires AllWithin(ord, |ids|)
  {
    m < |ord| && ids[ord[m] - 1] != 0 && d == AliasData(AnchorName(ids[ord[m] - 1]), m + 1)
  }

  lemma {:induction false} EntryFrom(ids: seq<nat>, ord: seq<nat>, k: nat) returns (m: nat)
    requires AllWithin(ord, |ids|) && k < |Table(ids, ord)|
    ensures IsEntry(ids, ord, Table(ids, ord)[k], m)
    decreases |ord|
  {
    var n := |ord| - 1;
    if k < |Table(ids, ord[..n])| {
      m := EntryFrom(ids, ord[..n], k);
    } else {
      m := n;
    }
  }

  lemma {:induction false} EntryOf(ids: seq<nat>, ord: seq<nat>, m: nat) returns (k: nat)
    requires AllWithin(ord, |ids|) && m < |ord| && ids[ord[m] - 1] != 0
    ensures k < |Table(ids, ord)| && IsEntry(ids, ord, Table(ids, ord)[k], m)
    decreases |ord|
  {
    var n := |ord| - 1;
    if m < n {
      k := EntryOf(ids, ord[..n], m);
    } else {
      k := |Table(ids, ord[..n])|;
    }
  }

  /** An anchor's name is found exactly if its node has been loaded, and then leads to that node. */
  lemma {:induction false} FindEntry(ids: seq<nat>, ord: seq<nat>, i: nat)
    requires AllWithin(ord, |ids|) && Distinct(ord) && DistinctIds(ids) && 1 <= i <= |ids| && ids[i - 1] != 0
    ensures FindAlias(Table(ids, ord), AnchorName(ids[i - 1])) == if i in ord then Some(Pos(ord, i) + 1) else None
  {
    var t, name := Table(ids, ord), AnchorName(ids[i - 1]);
    FindAliasIs(t, name);
    forall k | 0 <= k < |t| && t[k].anchor == name ensures i in ord && t[k].index == Pos(ord, i) + 1 {
      var m := EntryFrom(ids, ord, k);
      AnchorNamesDiffer(ids[ord[m] - 1], ids[i - 1]);
      SameId(ids, ord[m] - 1, i - 1);
      PosIs(ord, i, m);
    }
    if i in ord {
      var k := EntryOf(ids, ord, Pos(ord, i));
    }
  }

  // ---- Loading along the walk ----

  /** The loader has the nodes of `ord`, in that order, and their anchors. */
  ghost predicate Follows(doc: Document, ids: seq<nat>, ord: seq<nat>, c: Composer) {
    && Met(doc, ord) && |ids| == |doc| && DistinctIds(ids)
    && InBounds(c) && |c.nodes| == |ord| && c.aliases == Table(ids, ord)
  }

  /** The number of the open collection, or 0. */
  function Parent(c: Composer): nat {
    if c.ctx == [] then 0 else c.ctx[|c.ctx| - 1]
  }

  ghost predicate ParentOpen(c: Composer)
    requires InBounds(c)
  {
    c.ctx != [] ==> !c.nodes[Parent(c) - 1].ScalarNode?
  }

  /** Only the open collection changed among the nodes there were, by `n`. */
  ghost predicate Kept(c: Composer, c': Composer, n: Node) {
    && |c.nodes| <= |c'.nodes| && c'.ctx == c.ctx
    && (forall k | 0 <= k < |c.nodes| && k + 1 != Parent(c) :: c'.nodes[k] == c.nodes[k])
    && (0 < Parent(c) <= |c.nodes| ==> c'.nodes[Parent(c) - 1] == n)
  }

  ghost predicate Finished(doc: Document, ord: seq<nat>, c: Composer, k: nat)
    requires Met(doc, ord)
  {
    && k < |ord| && k < |c.nodes| && AllIn(Children(doc[ord[k] - 1]), ord)
    && c.nodes[k] == Renamed(ord, doc[ord[k] - 1])
  }

  ghost predicate FinishedFrom(doc: Document, ord: seq<nat>, c: Composer, from: nat)
    requires Met(doc, ord)
  {
    forall k: nat {:trigger Finished(doc, ord, c, k)} | from <= k < |ord| :: Finished(doc, ord, c, k)
  }

  lemma {:induction false} SameParent(c: Composer, c': Composer, n: Node)
    requires InBounds(c) && c.ctx != [] && Kept(c, c', n)
    ensures Parent(c') == Parent(c) && 0 < Parent(c) <= |c.nodes| && c'.nodes[Parent(c) - 1] == n
  {}

  /** The open collection with one more child. */
  ghost function Extended(c: Composer, index: nat): Node
    requires InBounds(c) && ParentOpen(c)
  {
    if c.ctx == [] then ScalarNode("", "", 0) else AddChild(c.nodes[Parent(c) - 1], index)
  }

  /** An alias adds the node it stands for to the open collection. */
  lemma {:induction false} AliasLoads(doc: Document, ids: seq<nat>, ord: seq<nat>, i: nat, c: Composer)
    requires InRange(doc) && Follows(doc, ids, ord, c) && ParentOpen(c) && i in ord && 1 <= i <= |doc| &&
             ids[i - 1] != 0
    ensures var r := Take(c, EventOf(doc, ids, Again(i)));
      r.Loaded? && Follows(doc, ids, ord, r.state) && Kept(c, r.state, Extended(c, Pos(ord, i) + 1))
  {
    FindEntry(ids, ord, i);
  }

  lemma {:induction false} RegisterLoads(doc: Document, ids: seq<nat>, ord: seq<nat>, i: nat, c: Composer, n: Node)
    requires InRange(doc) && Follows(doc, ids, ord, c) && i !in ord && 1 <= i <= |doc|
    ensures var c1 := c.(nodes := c.nodes + [n]);
      && InBounds(c1) && var r := Register(c1, |c.nodes| + 1, NameOf(ids[i - 1]));
      && r.Loaded? && r.state == Composer(c.nodes + [n], Table(ids, ord + [i]), c.ctx)
      && Follows(doc, ids, ord + [i], r.state)
  {
    if ids[i - 1] != 0 {
      FindEntry(ids, ord, i);
    }
    MeetNew(doc, ord, i);
    assert (ord + [i])[..|ord|] == ord;
  }

  /** The start of a node pushes it, registers its anchor and adds it to the open collection. */
  lemma {:induction false} NodeLoads(doc: Document, ids: seq<nat>, ord: seq<nat>, i: nat, c: Composer, n: Node)
    requires InRange(doc) && Follows(doc, ids, ord, c) && ParentOpen(c) && i !in ord && 1 <= i <= |doc|
    ensures var r := NodeNew(c, n, NameOf(ids[i - 1]));
      && r.Loaded? && Follows(doc, ids, ord + [i], r.state) && Kept(c, r.state, Extended(c, |ord| + 1))
      && r.state.nodes[|ord|] == n
  {
    RegisterLoads(doc, ids, ord, i, c, n);
  }

  /** The loader went from the nodes of `ord` to those of `ord'`: the new ones are finished, and among the
      others only the open collection changed, to `n`. */
  ghost predicate Grew(doc: Document, ids: seq<nat>, ord: seq<nat>, c: Composer, ord': seq<nat>, c': Composer, n: Node)
  {
    Follows(doc, ids, ord', c') && Kept(c, c', n) && FinishedFrom(doc, ord', c', |ord|)
  }

  lemma {:induction false} FinishedStays(doc: Document, a: seq<nat>, c: Composer, b: seq<nat>, c': Composer, k: nat)
    requires Met(doc, a) && Met(doc, b) && a <= b && Finished(doc, a, c, k) && k < |c'.nodes| &&
             c'.nodes[k] == c.nodes[k]
    ensures Finished(doc, b, c', k)
  {
    var n := doc[a[k] - 1];
    assert b[k] == a[k];
    RenamedStays(a, b, n);
    assert c'.nodes[k] == Renamed(b, n) && AllIn(Children(n), b);
  }

  lemma {:induction false} GrewTwice(doc: Document, ids: seq<nat>, ord: seq<nat>, c: Composer, ord1: seq<nat>,
                                     c1: Composer, n1: Node, ord2: seq<nat>, c2: Composer, n2: Node)
    requires InBounds(c) && |c.nodes| == |ord| && ord1 <= ord2 && |ord| <= |ord1|
    requires Grew(doc, ids, ord, c, ord1, c1, n1) && Grew(doc, ids, ord1, c1, ord2, c2, n2)
    ensures Grew(doc, ids, ord, c, ord2, c2, n2)
  {
    forall k: nat | |ord| <= k < |ord2| ensures Finished(doc, ord2, c2, k) {
      if k < |ord1| {
        assert Finished(doc, ord1, c1, k);
        FinishedStays(doc, ord1, c1, ord2, c2, k);
      }
    }
  }

  /** A collection is complete when its children have been loaded. */
  lemma {:induction false} Filled(doc: Document, ids: seq<nat>, ord: seq<nat>, i: nat)
    requires 1 <= i <= |doc| == |ids| && !doc[i - 1].ScalarNode?
    ensures AddChildren(NodeOf(EventOf(doc, ids, Enter(i))), Positions(ord, Children(doc[i - 1]))) ==
            Renamed(ord, doc[i - 1])
  {
    var n := NodeOf(EventOf(doc, ids, Enter(i)));
    if doc[i - 1].SequenceNode? {
      FillSequence(n, Positions(ord, Children(doc[i - 1])));
    } else {
      FillMapping(n, ord, doc[i - 1].pairs);
    }
  }

  /** From the start of a node with its children loaded to the end. */
  lemma {:induction false} Closes(doc: Document, ids: seq<nat>, ord: seq<nat>, i: nat, c: Composer, c1: Composer,
                                  ord': seq<nat>, c2: Composer, n: Node)
    requires InBounds(c) && |c.nodes| == |ord| && 1 <= i <= |doc| && !doc[i - 1].ScalarNode? && ord + [i] <= ord'
    requires Kept(c, c1, n) && |c1.nodes| == |ord| + 1 && AllIn(Children(doc[i - 1]), ord')
    requires Grew(doc, ids, ord + [i], Entered(c1, |ord| + 1), ord', c2, Renamed(ord', doc[i - 1]))
    ensures var r := Close(c2, doc[i - 1].SequenceNode?); r.Loaded? && Grew(doc, ids, ord, c, ord', r.state, n)
  {
    assert ord'[|ord|] == (ord + [i])[|ord|];
    var c3 := c2.(ctx := c2.ctx[..|c2.ctx| - 1]);
    assert c3.ctx == c.ctx;
    forall k: nat | |ord| <= k < |ord'| ensures Finished(doc, ord', c3, k) {
      if k > |ord| {
        assert Finished(doc, ord', c2, k);
      }
    }
  }

  /** Loading the events of `w` from `c` leads to `c'`. */
  ghost predicate Leads(doc: Document, ids: seq<nat>, w: Walked, c: Composer, c': Composer)
    requires InBounds(c) && |doc| == |ids|
  {
    StepsWithin(w.steps, |doc|) && TakeAll(c, Events(doc, ids, w.steps)) == Loaded(c')
  }

  /** The events of the meeting with `i` take the loader from `c` to `c'` and add the node `idx`. */
  ghost predicate NodeLoaded(doc: Document, ids: seq<nat>, ord: seq<nat>, i: nat, c: Composer, w: Walked, idx: nat,
                             c': Composer)
    requires InRange(doc) && Follows(doc, ids, ord, c) && ParentOpen(c) && 1 <= i <= |doc|
  {
    && w == Walk(doc, ord, i) && idx == Pos(w.ord, i) + 1
    && Leads(doc, ids, w, c, c') && Grew(doc, ids, ord, c, w.ord, c', Extended(c, idx))
  }

  /** The events of one node, loaded, give that node and what it reaches for the first time. */
  lemma {:induction false} WalkLoads(doc: Document, ids: seq<nat>, ord: seq<nat>, i: nat, c: Composer)
    returns (w: Walked, idx: nat, c': Composer)
    requires InRange(doc) && Follows(doc, ids, ord, c) && ParentOpen(c) && 1 <= i <= |doc|
    requires Named(ids, ord, Walk(doc, ord, i).steps)
    ensures NodeLoaded(doc, ids, ord, i, c, w, idx, c')
    decreases Unmet(doc, ord), 0
  {
    if i in ord {
      w, idx, c' := AgainLoads(doc, ids, ord, i, c);
    } else if doc[i - 1].ScalarNode? {
      w, idx, c' := ScalarLoads(doc, ids, ord, i, c);
    } else {
      MeetNew(doc, ord, i);
      NamedFirst(doc, ids, ord, i);
      var c1 := CollectionStarts(doc, ids, ord, i, c);
      var w1, ps, c2 := WalkAllLoads(doc, ids, ord + [i], Children(doc[i - 1]), Entered(c1, |ord| + 1));
      w, idx, c' := CollectionEnds(doc, ids, ord, i, c, c1, w1, ps, c2);
    }
  }

  function Entered(c: Composer, index: nat): Composer {
    c.(ctx := c.ctx + [index])
  }

  lemma {:induction false} AgainLoads(doc: Document, ids: seq<nat>, ord: seq<nat>, i: nat, c: Composer)
    returns (w: Walked, idx: nat, c': Composer)
    requires InRange(doc) && Follows(doc, ids, ord, c) && ParentOpen(c) && 1 <= i <= |doc| && i in ord
    requires Named(ids, ord, Walk(doc, ord, i).steps)
    ensures NodeLoaded(doc, ids, ord, i, c, w, idx, c')
  {
    w, idx := Walk(doc, ord, i), Pos(ord, i) + 1;
    AliasNamed(doc, ids, ord, i);
    var e := EventOf(doc, ids, Again(i));
    TakeOne(c, e);
    AliasLoads(doc, ids, ord, i, c);
    c' := Take(c, e).state;
  }

  lemma {:induction false} ScalarLoads(doc: Document, ids: seq<nat>, ord: seq<nat>, i: nat, c: Composer)
    returns (w: Walked, idx: nat, c': Composer)
    requires InRange(doc) && Follows(doc, ids, ord, c) && ParentOpen(c) && 1 <= i <= |doc| && i !in ord
    requires doc[i - 1].ScalarNode?
    ensures NodeLoaded(doc, ids, ord, i, c, w, idx, c')
  {
    var e := EventOf(doc, ids, Enter(i));
    w, idx := Walk(doc, ord, i), |ord| + 1;
    NodeLoads(doc, ids, ord, i, c, NodeOf(e));
    c' := NodeNew(c, NodeOf(e), NameOf(ids[i - 1])).state;
    ScalarEvents(doc, ids, ord, i, c);
    PosIs(ord + [i], i, |ord|);
    ScalarFinished(doc, ids, ord, i, c');
  }

  lemma {:induction false} ScalarFinished(doc: Document, ids: seq<nat>, ord: seq<nat>, i: nat, c: Composer)
    requires 1 <= i <= |doc| == |ids| && Met(doc, ord + [i]) && doc[i - 1].ScalarNode? && |c.nodes| == |ord| + 1
    requires c.nodes[|ord|] == NodeOf(EventOf(doc, ids, Enter(i)))
    ensures FinishedFrom(doc, ord + [i], c, |ord|)
  {
    assert Finished(doc, ord + [i], c, |ord|);
  }

  lemma {:induction false} ScalarEvents(doc: Document, ids: seq<nat>, ord: seq<nat>, i: nat, c: Composer)
    requires InRange(doc) && Met(doc, ord) && InBounds(c) && 1 <= i <= |doc| == |ids| && i !in ord &&
             doc[i - 1].ScalarNode?
    ensures var w := Walk(doc, ord, i); var e := EventOf(doc, ids, Enter(i));
      w == Walked(ord + [i], [Enter(i)]) && TakeAll(c, Events(doc, ids, w.steps)) ==
          NodeNew(c, NodeOf(e), NameOf(ids[i - 1]))
  {
    WalkScalar(doc, ord, i);
    EventsOne(doc, ids, Enter(i));
    TakeOne(c, EventOf(doc, ids, Enter(i)));
  }

  /** The start event of the collection `i` has been loaded; `c1` is the state but for the open collection. */
  ghost predicate Started(doc: Document, ids: seq<nat>, ord: seq<nat>, i: nat, c: Composer, c1: Composer)
    requires InRange(doc) && Follows(doc, ids, ord, c) && ParentOpen(c) && 1 <= i <= |doc|
  {
    && Follows(doc, ids, ord + [i], c1) && Kept(c, c1, Extended(c, |ord| + 1))
    && (var e := EventOf(doc, ids, Enter(i));
            c1.nodes[|ord|] == NodeOf(e) && Take(c, e) == Loaded(Entered(c1, |ord| + 1)))
    && Follows(doc, ids, ord + [i], Entered(c1, |ord| + 1)) && ParentOpen(Entered(c1, |ord| + 1))
  }

  /** The events of the meetings with `s` add the nodes `ps` to the open collection. */
  ghost predicate KidsLoaded(doc: Document, ids: seq<nat>, ord: seq<nat>, s: seq<nat>, c: Composer, w: Walked,
                             ps: seq<nat>, c': Composer)
    requires InRange(doc) && Follows(doc, ids, ord, c) && c.ctx != [] && ParentOpen(c) && AllWithin(s, |doc|)
  {
    && w == WalkAll(doc, ord, s) && ps == Positions(w.ord, s)
    && Leads(doc, ids, w, c, c') && Grew(doc, ids, ord, c, w.ord, c', AddChildren(c.nodes[Parent(c) - 1], ps))
  }

  lemma {:induction false} CollectionStarts(doc: Document, ids: seq<nat>, ord: seq<nat>, i: nat, c: Composer)
    returns (c1: Composer)
    requires InRange(doc) && Follows(doc, ids, ord, c) && ParentOpen(c) && 1 <= i <= |doc| && i !in ord
    requires !doc[i - 1].ScalarNode?
    ensures Started(doc, ids, ord, i, c, c1)
  {
    var e := EventOf(doc, ids, Enter(i));
    NodeLoads(doc, ids, ord, i, c, NodeOf(e));
    c1 := NodeNew(c, NodeOf(e), e.anchor).state;
  }

  lemma {:induction false} CollectionEnds(doc: Document, ids: seq<nat>, ord: seq<nat>, i: nat, c: Composer,
                                          c1: Composer, w1: Walked, ps: seq<nat>, c2: Composer)
    returns (w: Walked, idx: nat, c': Composer)
    requires InRange(doc) && Follows(doc, ids, ord, c) && ParentOpen(c) && 1 <= i <= |doc| && i !in ord
    requires !doc[i - 1].ScalarNode?
    requires Started(doc, ids, ord, i, c, c1)
    requires KidsLoaded(doc, ids, ord + [i], Children(doc[i - 1]), Entered(c1, |ord| + 1), w1, ps, c2)
    ensures NodeLoaded(doc, ids, ord, i, c, w, idx, c')
  {
    w, idx := Walk(doc, ord, i), |ord| + 1;
    MeetNew(doc, ord, i);
    WalkAllReaches(doc, ord + [i], Children(doc[i - 1]));
    Filled(doc, ids, w1.ord, i);
    Closes(doc, ids, ord, i, c, c1, w1.ord, c2, Extended(c, |ord| + 1));
    c' := Close(c2, doc[i - 1].SequenceNode?).state;
    CollectionLeads(doc, ids, ord, i, c, Entered(c1, |ord| + 1), c2);
    assert w1.ord[|ord|] == (ord + [i])[|ord|];
    PosIs(w1.ord, i, |ord|);
  }

  lemma {:induction false} CollectionLeads(doc: Document, ids: seq<nat>, ord: seq<nat>, i: nat, c: Composer,
                                           c1: Composer, c2: Composer)
    requires InRange(doc) && Met(doc, ord) && 1 <= i <= |doc| == |ids| && i !in ord && !doc[i - 1].ScalarNode?
    requires InBounds(c) && Take(c, EventOf(doc, ids, Enter(i))) == Loaded(c1) && InBounds(c1)
    requires Leads(doc, ids, Inner(doc, ord, i), c1, c2) && InBounds(c2) && Close(c2, doc[i - 1].SequenceNode?).Loaded?
    ensures Leads(doc, ids, Walk(doc, ord, i), c, Close(c2, doc[i - 1].SequenceNode?).state)
  {
    CollectionEvents(doc, ids, i, Inner(doc, ord, i).steps, c, c1, c2);
    TakeEnd(doc, ids, i, c2);
  }

  lemma {:induction false} TakeEnd(doc: Document, ids: seq<nat>, i: nat, c: Composer)
    requires 1 <= i <= |doc| == |ids| && !doc[i - 1].ScalarNode? && InBounds(c)
    ensures Take(c, EventOf(doc, ids, Leave(i))) == Close(c, doc[i - 1].SequenceNode?)
  {}

  lemma {:induction false} TakeAround(c: Composer, e: Event, c1: Composer, f: seq<Event>, c2: Composer, g: Event)
    requires InBounds(c) && Take(c, e) == Loaded(c1) && TakeAll(c1, f) == Loaded(c2)
    ensures TakeAll(c, [e] + f + [g]) == Take(c2, g)
  {
    assert [e] + f + [g] == [e] + (f + [g]);
    assert ([e] + (f + [g]))[1..] == f + [g];
    TakeAppend(c1, f, [g]);
    TakeOne(c2, g);
  }

  lemma {:induction false} CollectionEvents(doc: Document, ids: seq<nat>, i: nat, steps: seq<Step>, c: Composer,
                                            c1: Composer, c2: Composer)
    requires 1 <= i <= |doc| == |ids| && !doc[i - 1].ScalarNode? && StepsWithin(steps, |doc|) && InBounds(c)
    requires Take(c, EventOf(doc, ids, Enter(i))) == Loaded(c1) && TakeAll(c1, Events(doc, ids, steps)) == Loaded(c2)
    ensures StepsWithin([Enter(i)] + steps + [Leave(i)], |doc|)
    ensures TakeAll(c, Events(doc, ids, [Enter(i)] + steps + [Leave(i)])) == Take(c2, EventOf(doc, ids, Leave(i)))
  {
    var e, f, g := EventOf(doc, ids, Enter(i)), Events(doc, ids, steps), EventOf(doc, ids, Leave(i));
    EventsAround(doc, ids, Enter(i), steps, Leave(i), []);
    TakeAround(c, e, c1, f, c2, g);
  }

  lemma {:induction false} WalkAllLoads(doc: Document, ids: seq<nat>, ord: seq<nat>, s: seq<nat>, c: Composer)
    returns (w: Walked, ps: seq<nat>, c': Composer)
    requires InRange(doc) && Follows(doc, ids, ord, c) && c.ctx != [] && ParentOpen(c) && AllWithin(s, |doc|)
    requires Named(ids, ord, WalkAll(doc, ord, s).steps)
    ensures KidsLoaded(doc, ids, ord, s, c, w, ps, c')
    decreases Unmet(doc, ord), 1 + |s|
  {
    if s == [] {
      w, ps, c' := NoKids(doc, ids, ord, c);
    } else {
      var n := |s| - 1;
      var t, x := s[..n], s[n];
      assert s == t + [x];
      NamedShorter(doc, ids, ord, s, t);
      NamedNext(doc, ids, ord, s, t, x);
      var a, qs, c1 := WalkAllLoads(doc, ids, ord, t, c);
      KidsOpen(doc, ids, ord, t, c, a, qs, c1);
      var b, idx;
      b, idx, c' := WalkLoads(doc, ids, a.ord, x, c1);
      w, ps := KidNext(doc, ids, ord, s, t, x, c, a, qs, c1, b, idx, c');
    }
  }

  lemma {:induction false} KidsOpen(doc: Document, ids: seq<nat>, ord: seq<nat>, t: seq<nat>, c: Composer, a: Walked,
                                    qs: seq<nat>, c1: Composer)
    requires InRange(doc) && Follows(doc, ids, ord, c) && c.ctx != [] && ParentOpen(c) && AllWithin(t, |doc|)
    requires KidsLoaded(doc, ids, ord, t, c, a, qs, c1)
    ensures Follows(doc, ids, a.ord, c1) && ParentOpen(c1) && Unmet(doc, a.ord) <= Unmet(doc, ord)
  {
    MetGrows(doc, ord, t);
    SameParent(c, c1, AddChildren(c.nodes[Parent(c) - 1], qs));
  }

  lemma {:induction false} NoKids(doc: Document, ids: seq<nat>, ord: seq<nat>, c: Composer)
    returns (w: Walked, ps: seq<nat>, c': Composer)
    requires InRange(doc) && Follows(doc, ids, ord, c) && c.ctx != [] && ParentOpen(c)
    ensures KidsLoaded(doc, ids, ord, [], c, w, ps, c')
  {
    w, ps, c' := Walked(ord, []), [], c;
  }

  lemma {:induction false} KidNext(doc: Document, ids: seq<nat>, ord: seq<nat>, s: seq<nat>, t: seq<nat>, x: nat,
                                   c: Composer, a: Walked, qs: seq<nat>, c1: Composer, b: Walked, idx: nat,
                                   c': Composer)
    returns (w: Walked, ps: seq<nat>)
    requires InRange(doc) && Follows(doc, ids, ord, c) && c.ctx != [] && ParentOpen(c) && AllWithin(t, |doc|) &&
             1 <= x <= |doc|
    requires KidsLoaded(doc, ids, ord, t, c, a, qs, c1) && ParentOpen(c1) && s == t + [x] && AllWithin(s, |doc|)
    requires NodeLoaded(doc, ids, a.ord, x, c1, b, idx, c')
    ensures KidsLoaded(doc, ids, ord, s, c, w, ps, c')
  {
    w, ps := NextPlace(doc, ord, t, x, a, qs, b, idx);
    NextLeads(doc, ids, a, b, c, c1, c');
    NextGrew(doc, ids, ord, c, a.ord, c1, qs, b.ord, c', idx);
  }

  lemma {:induction false} NamedShorter(doc: Document, ids: seq<nat>, ord: seq<nat>, s: seq<nat>, t: seq<nat>)
    requires InRange(doc) && Met(doc, ord) && AllWithin(s, |doc|) && t <= s &&
             Named(ids, ord, WalkAll(doc, ord, s).steps)
    ensures AllWithin(t, |doc|) && Named(ids, ord, WalkAll(doc, ord, t).steps)
  {
    StepsGrow(doc, ord, t, s);
    forall i | 1 <= i <= |ids| ensures NamedAt(ids, ord, WalkAll(doc, ord, t).steps, i) {
      assert NamedAt(ids, ord, WalkAll(doc, ord, s).steps, i);
      CountGrows(WalkAll(doc, ord, t).steps, WalkAll(doc, ord, s).steps, i);
    }
  }

  lemma {:induction false} NextPlace(doc: Document, ord: seq<nat>, t: seq<nat>, x: nat, a: Walked, qs: seq<nat>,
                                     b: Walked, idx: nat)
    returns (w: Walked, ps: seq<nat>)
    requires InRange(doc) && Met(doc, ord) && AllWithin(t, |doc|) && 1 <= x <= |doc|
    requires a == WalkAll(doc, ord, t) && qs == Positions(a.ord, t) && b == Walk(doc, a.ord, x) &&
             idx == Pos(b.ord, x) + 1
    ensures AllWithin(t + [x], |doc|) && w == WalkAll(doc, ord, t + [x]) && ps == Positions(w.ord, t + [x])
    ensures w == Walked(b.ord, a.steps + b.steps) && ps == qs + [idx]
  {
    w, ps := Walked(b.ord, a.steps + b.steps), qs + [idx];
    WalkNext(doc, ord, t, x);
    WalkAllReaches(doc, ord, t);
    NextPositions(a.ord, b.ord, t, x);
  }

  lemma {:induction false} NextLeads(doc: Document, ids: seq<nat>, a: Walked, b: Walked, c: Composer, c1: Composer,
                                     c2: Composer)
    requires |doc| == |ids| && InBounds(c) && InBounds(c1) && Leads(doc, ids, a, c, c1) && Leads(doc, ids, b, c1, c2)
    ensures Leads(doc, ids, Walked(b.ord, a.steps + b.steps), c, c2)
  {
    TakeBoth(doc, ids, a.steps, b.steps, c, c1);
  }

  lemma {:induction false} WalkNext(doc: Document, ord: seq<nat>, t: seq<nat>, x: nat)
    requires InRange(doc) && Met(doc, ord) && AllWithin(t, |doc|) && 1 <= x <= |doc|
    ensures AllWithin(t + [x], |doc|)
    ensures var a := WalkAll(doc, ord, t); var b := Walk(doc, a.ord, x);
      WalkAll(doc, ord, t + [x]) == Walked(b.ord, a.steps + b.steps)
  {
    assert (t + [x])[..|t|] == t;
  }

  /** One more child of the open collection `p` after those at `ps`. */
  lemma {:induction false} NextGrew(doc: Document, ids: seq<nat>, ord: seq<nat>, c: Composer, ord1: seq<nat>,
                                    c1: Composer, ps: seq<nat>, ord2: seq<nat>, c2: Composer, idx: nat)
    requires InBounds(c) && |c.nodes| == |ord| && c.ctx != [] && ParentOpen(c) && ord1 <= ord2 && |ord| <= |ord1|
    requires Grew(doc, ids, ord, c, ord1, c1, AddChildren(c.nodes[Parent(c) - 1], ps)) && ParentOpen(c1)
    requires Grew(doc, ids, ord1, c1, ord2, c2, Extended(c1, idx))
    ensures Grew(doc, ids, ord, c, ord2, c2, AddChildren(c.nodes[Parent(c) - 1], ps + [idx]))
  {
    var p := c.nodes[Parent(c) - 1];
    SameParent(c, c1, AddChildren(p, ps));
    assert (ps + [idx])[..|ps|] == ps;
    GrewTwice(doc, ids, ord, c, ord1, c1, AddChildren(p, ps), ord2, c2, AddChildren(p, ps + [idx]));
  }

  lemma {:induction false} TakeBoth(doc: Document, ids: seq<nat>, a: seq<Step>, b: seq<Step>, c: Composer, c1: Composer)
    requires |doc| == |ids| && StepsWithin(a, |doc|) && StepsWithin(b, |doc|) && InBounds(c)
    requires TakeAll(c, Events(doc, ids, a)) == Loaded(c1)
    ensures StepsWithin(a + b, |doc|)
    ensures TakeAll(c, Events(doc, ids, a + b)) == TakeAll(c1, Events(doc, ids, b))
  {
    EventsAppend(doc, ids, a, b);
    TakeAppend(c, Events(doc, ids, a), Events(doc, ids, b));
  }

  lemma {:induction false} NextPositions(a: seq<nat>, b: seq<nat>, s: seq<nat>, x: nat)
    requires a <= b && Distinct(b) && AllIn(s, a)
    ensures Positions(b, s + [x]) == Positions(a, s) + [Pos(b, x) + 1]
  {
    PositionsStay(a, b, s);
  }

  // ---- The round trip ----

  /** Reachable from the root: in every set of nodes that holds the root and that no child leads out of. */
  ghost predicate Reachable(doc: Document, i: nat) {
    forall s: set<nat> | Closed(doc, s) && 1 in s :: i in s
  }

  /** The walk meets exactly the reachable nodes, each once, and the root first. */
  lemma {:induction false} MeetsReachable(doc: Document, i: nat)
    requires InRange(doc) && doc != []
    ensures var ord := Walk(doc, [], 1).ord;
            Distinct(ord) && ord != [] && ord[0] == 1 && (i in ord <==> Reachable(doc, i))
  {
    var ord := Walk(doc, [], 1).ord;
    assert [] + [1] == [1];
    assert ord[0] == [1][0];
    if i in ord {
      forall s: set<nat> | Closed(doc, s) && 1 in s ensures i in s {
        WalkStays(doc, [], 1, s, i);
      }
    } else {
      var s := set j | j in ord;
      MetClosed(doc, s);
      assert 1 in s && i !in s;
    }
  }

  lemma {:induction false} MetClosed(doc: Document, s: set<nat>)
    requires InRange(doc) && doc != [] && s == set j | j in Walk(doc, [], 1).ord
    ensures Closed(doc, s)
  {
    forall j | j in s && 1 <= j <= |doc| ensures forall c | c in Children(doc[j - 1]) :: c in s {
      WalkCloses(doc, [], 1, j);
    }
  }

  /** `nodes` is the reachable part of `doc`, renumbered by the place in `ord`. */
  ghost predicate Isomorphic(doc: Document, ord: seq<nat>, nodes: Document)
    requires Met(doc, ord)
  {
    |nodes| == |ord| && forall k | 0 <= k < |ord| ::
            AllIn(Children(doc[ord[k] - 1]), ord) && nodes[k] == Renamed(ord, doc[ord[k] - 1])
  }

  /** Loading what was dumped gives back the reachable part of the graph, shared and cyclic parts included:
      no alias is undefined, no anchor is defined twice, and all collections are closed. */
  lemma {:induction false} DumpThenLoad(doc: Document)
    requires InRange(doc) && doc != []
    ensures InBounds(EMPTY)
    ensures var r := TakeAll(EMPTY, Dumped(doc));
      r.Loaded? && r.state.ctx == [] && Isomorphic(doc, Walk(doc, [], 1).ord, r.state.nodes)
  {
    AnchorsDiffer(doc);
    AnchoredNamed(doc);
    var w, idx, c := WalkLoads(doc, Ids(Anchored(doc)), [], 1, EMPTY);
    AllFinished(doc, w.ord, c);
  }

  lemma {:induction false} AnchorsDiffer(doc: Document)
    requires InRange(doc) && doc != []
    ensures |Ids(Anchored(doc))| == |doc| && DistinctIds(Ids(Anchored(doc)))
  {
    AnchoredTallied(doc);
    var ids := Ids(Anchored(doc));
    assert forall k, l | 0 <= k < l < |ids| :: ClashFree(ids, k, l);
  }

  lemma {:induction false} AllFinished(doc: Document, ord: seq<nat>, c: Composer)
    requires Met(doc, ord) && |c.nodes| == |ord| && FinishedFrom(doc, ord, c, 0)
    ensures Isomorphic(doc, ord, c.nodes)
  {
    forall k: nat | k < |ord| ensures AllIn(Children(doc[ord[k] - 1]), ord) &&
        c.nodes[k] == Renamed(ord, doc[ord[k] - 1]) {
      assert Finished(doc, ord, c, k);
    }
  }

  ghost predicate SameTag(n: Node, ord: seq<nat>) {
    Renamed(ord, n).tag == n.tag
  }

  /** The k-th node has the tag of the k-th node that was met. */
  predicate TagAt(doc: Document, ord: seq<nat>, nodes: Document, k: nat)
    requires Met(doc, ord) && |nodes| == |ord| && k < |ord|
  {
    nodes[k].tag == doc[ord[k] - 1].tag
  }

  predicate AllTagsAt(doc: Document, ord: seq<nat>, nodes: Document)
    requires Met(doc, ord) && |nodes| == |ord|
  {
    forall k | 0 <= k < |ord| :: TagAt(doc, ord, nodes, k)
  }

  predicate NoBang(doc: Document, ord: seq<nat>)
    requires Met(doc, ord)
  {
    forall k | 0 <= k < |ord| :: doc[ord[k] - 1].tag != "!"
  }

  lemma {:induction false} TagsRenamed(doc: Document, ord: seq<nat>, nodes: Document)
    requires Met(doc, ord) && Isomorphic(doc, ord, nodes)
    ensures AllTagsAt(doc, ord, nodes) <==> NoBang(doc, ord)
  {
    forall k | 0 <= k < |ord| ensures TagAt(doc, ord, nodes, k) <==> doc[ord[k] - 1].tag != "!" {
      TagKept(doc[ord[k] - 1], ord);
    }
  }

  /** Dumping and loading keep all tags exactly if no reachable node has the tag "!". */
  lemma {:induction false} TagsKept(doc: Document)
    requires InRange(doc) && doc != []
    ensures InBounds(EMPTY)
    ensures var ord, r := Walk(doc, [], 1).ord, TakeAll(EMPTY, Dumped(doc));
      && r.Loaded? && |r.state.nodes| == |ord|
      && (AllTagsAt(doc, ord, r.state.nodes) <==> NoBang(doc, ord))
  {
    DumpThenLoad(doc);
    TagsRenamed(doc, Walk(doc, [], 1).ord, TakeAll(EMPTY, Dumped(doc)).state.nodes);
  }

  /** A scalar with the tag "!" is loaded with the default tag. */
  lemma {:induction false} BangTag(doc: Document, text: string, style: nat)
    requires doc == [ScalarNode("!", text, style)]
    ensures InRange(doc) && InBounds(EMPTY)
    ensures var r := TakeAll(EMPTY, Dumped(doc)); r.Loaded? && |r.state.nodes| == 1 && r.state.nodes[0].tag != "!"
  {
    WalkScalar(doc, [], 1);
    TagsKept(doc);
    var r := TakeAll(EMPTY, Dumped(doc));
    assert doc[[1][0] - 1].tag == "!" && TagAt(doc, [1], r.state.nodes, 0) == (r.state.nodes[0].tag == "!");
    assert !NoBang(doc, [1]);
  }

  lemma {:induction false} TagKept(n: Node, ord: seq<nat>)
    ensures SameTag(n, ord) <==> n.tag != "!"
  {
    DefaultTags();
  }

  lemma {:induction false} DefaultTags()
    ensures DEFAULT_SCALAR_TAG != "!" && DEFAULT_SEQUENCE_TAG != "!" && DEFAULT_MAPPING_TAG != "!"
  {
    assert |DEFAULT_SCALAR_TAG| == 21 && |DEFAULT_SEQUENCE_TAG| == 21 && |DEFAULT_MAPPING_TAG| == 21;
  }
}
