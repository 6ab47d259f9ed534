/** What the loader makes of the events of a document, said of the tree: which nodes, with which tags, texts, styles
    and children, and exactly when it fails. */
module YamlLoaded {
  import opened Options
  import opened YamlEvents
  import opened YamlGraph
  import opened YamlTrees
  import opened YamlLoader

  // ---- The document that a tree stands for ----

  predicate IsNode(e: Event) {
    e.Scalar? || e.SequenceStart? || e.MappingStart?
  }

  function AnchorOf(e: Event): Option<string> {
    if IsNode(e) then e.anchor else None
  }

  /** Nodes are numbered from 1 in the order of their events. */
  function NodeCount(events: seq<Event>): nat {
    if events == [] then 0
    else
      var n := |events| - 1;
      NodeCount(events[..n]) + if IsNode(events[n]) then 1 else 0
  }

  /** The number of the node with that anchor, 0 if there is none. */
  function Target(events: seq<Event>, name: string): nat {
    if events == [] then 0
    else
      var n := |events| - 1;
      var before := Target(events[..n], name);
      if before != 0 then before else if AnchorOf(events[n]) == Some(name) then NodeCount(events) else 0
  }

  /** An untagged node, or one tagged `!`, has the tag of its kind. */
  function TagOf(tag: Option<string>, default: string): string {
    if tag.None? || tag.value == "!" then default else tag.value
  }

  /** Keys and values take turns. */
  function Paired(refs: seq<nat>): seq<Pair> {
    seq((|refs| + 1) / 2, k requires 0 <= 2 * k < |refs| =>
        Pair(refs[2 * k], if 2 * k + 1 < |refs| then refs[2 * k + 1] else 0))
  }

  function NodeFor(e: Event, refs: seq<nat>): Node
    requires IsNode(e)
  {
    match e
    case Scalar(_, tag, text, _, _, style) => ScalarNode(TagOf(tag, "tag:yaml.org,2002:str"), text, style)
    case SequenceStart(_, tag, _, style) => SequenceNode(TagOf(tag, "tag:yaml.org,2002:seq"), refs, style)
    case MappingStart(_, tag, _, style) => MappingNode(TagOf(tag, "tag:yaml.org,2002:map"), Paired(refs), style)
  }

  function Count(t: Tree): nat
    decreases t, 0
  {
    match t
    case Leaf(e) => if e.Scalar? then 1 else 0
    case Branch(_, kids) => 1 + CountAll(kids, |kids|)
  }

  function CountAll(kids: seq<Tree>, n: nat): nat
    requires n <= |kids|
    decreases kids, n
  {
    if n == 0 then 0 else CountAll(kids, n - 1) + Count(kids[n - 1])
  }

  /** What a parent has as the number of this child: an alias stands for the node of its anchor. */
  function RefOf(t: Tree, first: nat, doc: seq<Event>): nat {
    if t.Leaf? && t.event.Alias? then Target(doc, t.event.name) else first
  }

  function RefsOf(kids: seq<Tree>, n: nat, first: nat, doc: seq<Event>): (r: seq<nat>)
    requires n <= |kids|
    ensures |r| == n
  {
    if n == 0 then [] else RefsOf(kids, n - 1, first, doc) + [RefOf(kids[n - 1], first + CountAll(kids, n - 1), doc)]
  }

  /** The nodes of a tree of which the first is number `first`. */
  function NodesOf(t: Tree, first: nat, doc: seq<Event>): seq<Node>
    decreases t, 0
  {
    match t
    case Leaf(e) => if e.Scalar? then [NodeFor(e, [])] else []
    case Branch(start, kids) =>
      (if IsNode(start) then [NodeFor(start, RefsOf(kids, |kids|, first + 1, doc))] else []) +
      NodesOfAll(kids, |kids|, first + 1, doc)
  }

  function NodesOfAll(kids: seq<Tree>, n: nat, first: nat, doc: seq<Event>): seq<Node>
    requires n <= |kids|
    decreases kids, n
  {
    if n == 0 then []
    else NodesOfAll(kids, n - 1, first, doc) + NodesOf(kids[n - 1], first + CountAll(kids, n - 1), doc)
  }

  /** One of the first `k` events has this anchor. */
  predicate Named(events: seq<Event>, k: nat, name: string)
    requires k <= |events|
  {
    exists j | 0 <= j < k :: AnchorOf(events[j]) == Some(name)
  }

  /** An alias comes after its anchor, and an anchor comes once. */
  predicate SoundAt(events: seq<Event>, k: nat)
    requires k < |events|
  {
    var e := events[k];
    (e.Alias? ==> Named(events, k, e.name)) && (AnchorOf(e).Some? ==> !Named(events, k, AnchorOf(e).value))
  }

  predicate SoundNames(events: seq<Event>) {
    forall k | 0 <= k < |events| :: SoundAt(events, k)
  }

  // ---- What the events so far determine ----

  /** The anchors in the order of their events, each with its node. */
  function AnchorsIn(events: seq<Event>): seq<AliasData> {
    if events == [] then []
    else
      var n := |events| - 1;
      var name := AnchorOf(events[n]);
      AnchorsIn(events[..n]) + if name.Some? then [AliasData(name.value, NodeCount(events))] else []
  }

  lemma {:induction false} Snoc(pre: seq<Event>, e: Event)
    ensures NodeCount(pre + [e]) == NodeCount(pre) + if IsNode(e) then 1 else 0
    ensures AnchorsIn(pre + [e]) == AnchorsIn(pre) +
            if AnchorOf(e).Some? then [AliasData(AnchorOf(e).value, NodeCount(pre) + 1)] else []
  {
    assert (pre + [e])[..|pre|] == pre;
  }

  lemma {:induction false} TargetSnoc(pre: seq<Event>, e: Event, name: string)
    ensures Target(pre + [e], name) == if Target(pre, name) != 0 then Target(pre, name)
                                       else if AnchorOf(e) == Some(name) then NodeCount(pre) + 1
                                       else 0
  {
    assert (pre + [e])[..|pre|] == pre;
  }

  /** What an anchor stands for does not change. */
  lemma {:induction false} TargetStays(pre: seq<Event>, doc: seq<Event>, name: string)
    requires pre <= doc && Target(pre, name) != 0
    ensures Target(doc, name) == Target(pre, name)
    decreases |doc|
  {
    if pre != doc {
      var n := |doc| - 1;
      assert pre <= doc[..n];
      TargetStays(pre, doc[..n], name);
    } else {
      assert pre == doc;
    }
  }

  lemma {:induction false} TargetNamed(events: seq<Event>, name: string)
    ensures Target(events, name) != 0 <==> Named(events, |events|, name)
    ensures Target(events, name) <= NodeCount(events)
    decreases |events|
  {
    if events != [] {
      var n := |events| - 1;
      TargetNamed(events[..n], name);
      NamedShorter(events, name);
    }
  }

  lemma {:induction false} NamedShorter(events: seq<Event>, name: string)
    requires events != []
    ensures var n := |events| - 1;
      Named(events, |events|, name) <==> Named(events[..n], n, name) || AnchorOf(events[n]) == Some(name)
  {
    var n := |events| - 1;
    if Named(events[..n], n, name) {
      var j :| 0 <= j < n && AnchorOf(events[..n][j]) == Some(name);
      assert AnchorOf(events[j]) == Some(name);
    }
    if j :| 0 <= j < |events| && AnchorOf(events[j]) == Some(name) {
      assert j < n ==> AnchorOf(events[..n][j]) == Some(name);
    }
  }

  lemma {:induction false} FindSnoc(l: seq<AliasData>, x: AliasData, name: string)
    ensures FindAlias(l + [x], name) == if FindAlias(l, name).Some? then FindAlias(l, name)
                                        else if x.anchor == name then Some(x.index)
                                        else None
    decreases |l|
  {
    if l != [] {
      assert (l + [x])[1..] == l[1..] + [x];
      FindSnoc(l[1..], x, name);
    }
  }

  /** The table of the loader holds what the anchors stand for. */
  lemma {:induction false} FindTarget(events: seq<Event>, name: string)
    ensures var k := Target(events, name); FindAlias(AnchorsIn(events), name) == if k == 0 then None else Some(k)
    decreases |events|
  {
    if events != [] {
      var n := |events| - 1;
      var pre, e := events[..n], events[n];
      assert events == pre + [e];
      FindTarget(pre, name);
      Snoc(pre, e);
      if AnchorOf(e).Some? {
        FindSnoc(AnchorsIn(pre), AliasData(AnchorOf(e).value, NodeCount(pre) + 1), name);
      } else {
        assert AnchorsIn(events) == AnchorsIn(pre);
      }
    }
  }

  lemma {:induction false} AnchorsBounded(events: seq<Event>)
    ensures forall k | 0 <= k < |AnchorsIn(events)| :: 1 <= AnchorsIn(events)[k].index <= NodeCount(events)
    decreases |events|
  {
    if events != [] {
      AnchorsBounded(events[..|events| - 1]);
    }
  }

  // ---- Soundness of the names, event by event ----

  lemma {:induction false} SameNamed(a: seq<Event>, b: seq<Event>, k: nat, name: string)
    requires k <= |a| && a <= b
    ensures Named(a, k, name) <==> Named(b, k, name)
  {
    if j :| 0 <= j < k && AnchorOf(a[j]) == Some(name) {
      assert AnchorOf(b[j]) == Some(name);
    }
    if j :| 0 <= j < k && AnchorOf(b[j]) == Some(name) {
      assert AnchorOf(a[j]) == Some(name);
    }
  }

  lemma {:induction false} SameSound(a: seq<Event>, b: seq<Event>, k: nat)
    requires k < |a| && a <= b
    ensures SoundAt(a, k) <==> SoundAt(b, k)
  {
    var e := a[k];
    if e.Alias? {
      SameNamed(a, b, k, e.name);
    }
    if AnchorOf(e).Some? {
      SameNamed(a, b, k, AnchorOf(e).value);
    }
  }

  lemma {:induction false} SoundPrefix(a: seq<Event>, b: seq<Event>)
    requires a <= b && SoundNames(b)
    ensures SoundNames(a)
  {
    forall k | 0 <= k < |a| ensures SoundAt(a, k) {
      SameSound(a, b, k);
    }
  }

  /** The next event keeps the names sound if it is an alias of an anchor that has been, or has a new anchor or none. */
  predicate Fits(pre: seq<Event>, e: Event) {
    && (e.Alias? ==> Target(pre, e.name) != 0)
    && (AnchorOf(e).Some? ==> Target(pre, AnchorOf(e).value) == 0)
  }

  lemma {:induction false} SoundSnoc(pre: seq<Event>, e: Event)
    requires SoundNames(pre)
    ensures SoundNames(pre + [e]) <==> Fits(pre, e)
  {
    var events := pre + [e];
    forall k | 0 <= k < |pre| ensures SoundAt(events, k) {
      SameSound(pre, events, k);
    }
    if e.Alias? {
      SameNamed(pre, events, |pre|, e.name);
      TargetNamed(pre, e.name);
    }
    if AnchorOf(e).Some? {
      SameNamed(pre, events, |pre|, AnchorOf(e).value);
      TargetNamed(pre, AnchorOf(e).value);
    }
    assert SoundNames(events) <==> SoundAt(events, |pre|);
  }

  // ---- One event ----

  /** If any collection is open, the innermost is one. */
  predicate TakesChild(nodes: seq<Node>, ctx: seq<nat>) {
    ctx != [] ==> 1 <= ctx[|ctx| - 1] <= |nodes| && !nodes[ctx[|ctx| - 1] - 1].ScalarNode?
  }

  /** The open collection with one more child. */
  function WithChild(nodes: seq<Node>, ctx: seq<nat>, index: nat): (r: seq<Node>)
    requires TakesChild(nodes, ctx)
    ensures |r| == |nodes|
  {
    if ctx == [] then nodes
    else
      var p := ctx[|ctx| - 1] - 1;
      nodes[p := AddChild(nodes[p], index)]
  }

  /** The state of the loader after the events `pre`, with a collection on top if any is open. */
  ghost predicate After(pre: seq<Event>, c: Composer) {
    && SoundNames(pre) && c.aliases == AnchorsIn(pre) && |c.nodes| == NodeCount(pre) && InBounds(c)
    && TakesChild(c.nodes, c.ctx)
  }

  lemma {:induction false} TakesAlias(pre: seq<Event>, c: Composer, e: Event)
    requires After(pre, c) && e.Alias?
    ensures Take(c, e) == if !Fits(pre, e) then Failed
                          else Loaded(c.(nodes := WithChild(c.nodes, c.ctx, Target(pre, e.name))))
  {
    FindTarget(pre, e.name);
  }

  lemma {:induction false} Registers(pre: seq<Event>, c: Composer, e: Event)
    requires SoundNames(pre) && c.aliases == AnchorsIn(pre) && InBounds(c) && |c.nodes| == NodeCount(pre) + 1
    requires IsNode(e)
    ensures Register(c, NodeCount(pre) + 1, e.anchor) ==
            if Fits(pre, e) then Loaded(c.(aliases := AnchorsIn(pre + [e]))) else Failed
  {
    Snoc(pre, e);
    if e.anchor.Some? {
      FindTarget(pre, e.anchor.value);
    }
  }

  lemma {:induction false} TakesNode(pre: seq<Event>, c: Composer, e: Event)
    requires After(pre, c) && IsNode(e)
    ensures NodeOf(e) == NodeFor(e, [])
    ensures var i := NodeCount(pre) + 1;
      NodeNew(c, NodeOf(e), e.anchor) ==
        if !Fits(pre, e) then Failed
        else Loaded(Composer(WithChild(c.nodes, c.ctx, i) + [NodeFor(e, [])], AnchorsIn(pre + [e]), c.ctx))
  {
    assert Paired([]) == [];
    NewNode(pre, c, e, NodeFor(e, []));
  }

  lemma {:induction false} NewNode(pre: seq<Event>, c: Composer, e: Event, node: Node)
    requires After(pre, c) && IsNode(e)
    ensures var i := NodeCount(pre) + 1;
      NodeNew(c, node, e.anchor) ==
        if !Fits(pre, e) then Failed
        else Loaded(Composer(WithChild(c.nodes, c.ctx, i) + [node], AnchorsIn(pre + [e]), c.ctx))
  {
    Registers(pre, c.(nodes := c.nodes + [node]), e);
    Appended(c.nodes, c.ctx, node, NodeCount(pre) + 1);
  }

  /** A child joins its parent before or after the node itself is there. */
  lemma {:induction false} Appended(nodes: seq<Node>, ctx: seq<nat>, n: Node, index: nat)
    requires TakesChild(nodes, ctx)
    ensures TakesChild(nodes + [n], ctx)
    ensures WithChild(nodes + [n], ctx, index) == WithChild(nodes, ctx, index) + [n]
  {}

  // ---- One tree ----

  lemma {:induction false} CountFlat(pre: seq<Event>, t: Tree)
    requires Proper(t)
    ensures NodeCount(pre + Flat(t)) == NodeCount(pre) + Count(t)
    decreases t, 0
  {
    match t
    case Leaf(e) => Snoc(pre, e);
    case Branch(start, kids) =>
      Snoc(pre, start);
      CountFlatAll(pre + [start], kids, |kids|);
      Snoc(pre + [start] + FlatAll(kids, |kids|), EndOf(start));
      Around(pre, start, FlatAll(kids, |kids|), EndOf(start));
  }

  lemma {:induction false} CountFlatAll(pre: seq<Event>, kids: seq<Tree>, n: nat)
    requires AllProper(kids) && n <= |kids|
    ensures NodeCount(pre + FlatAll(kids, n)) == NodeCount(pre) + CountAll(kids, n)
    decreases kids, n
  {
    if n == 0 {
      assert pre + FlatAll(kids, n) == pre;
    } else {
      CountFlatAll(pre, kids, n - 1);
      CountFlat(pre + FlatAll(kids, n - 1), kids[n - 1]);
      assert pre + (FlatAll(kids, n - 1) + Flat(kids[n - 1])) == pre + FlatAll(kids, n - 1) + Flat(kids[n - 1]);
    }
  }

  lemma {:induction false} Around<T>(pre: seq<T>, a: T, body: seq<T>, z: T)
    ensures pre + ([a] + body + [z]) == pre + [a] + body + [z]
  {}

  lemma {:induction false} Sized(t: Tree, first: nat, doc: seq<Event>)
    requires Proper(t)
    ensures |NodesOf(t, first, doc)| == Count(t)
    decreases t, 0
  {
    if t.Branch? {
      SizedAll(t.kids, |t.kids|, first + 1, doc);
    }
  }

  lemma {:induction false} SizedAll(kids: seq<Tree>, n: nat, first: nat, doc: seq<Event>)
    requires AllProper(kids) && n <= |kids|
    ensures |NodesOfAll(kids, n, first, doc)| == CountAll(kids, n)
    decreases kids, n
  {
    if n > 0 {
      SizedAll(kids, n - 1, first, doc);
      Sized(kids[n - 1], first + CountAll(kids, n - 1), doc);
    }
  }

  /** The state after a tree: its nodes are there, and the open collection has it as a child. */
  ghost function WithTree(c: Composer, t: Tree, first: nat, all: seq<Event>, doc: seq<Event>): Composer
    requires TakesChild(c.nodes, c.ctx)
  {
    Composer(WithChild(c.nodes, c.ctx, RefOf(t, first, doc)) + NodesOf(t, first, doc), AnchorsIn(all), c.ctx)
  }

  /** From `c` the events lead to `d` if the names in all events so far are sound, and fail if not. */
  ghost predicate Taken(c: Composer, events: seq<Event>, all: seq<Event>, d: Composer)
    requires InBounds(c)
  {
    TakeAll(c, events) == if SoundNames(all) then Loaded(d) else Failed
  }

  ghost predicate TreeTaken(c: Composer, t: Tree, first: nat, all: seq<Event>, doc: seq<Event>)
    requires InBounds(c) && TakesChild(c.nodes, c.ctx)
  {
    (SoundNames(all) ==> RefOf(t, first, doc) != 0) && Taken(c, Flat(t), all, WithTree(c, t, first, all, doc))
  }

  lemma {:induction false} TakenOn(c: Composer, a: seq<Event>, b: seq<Event>, some: seq<Event>, all: seq<Event>,
                                   d: Composer, e: Composer)
    requires InBounds(c) && Taken(c, a, some, d)
    requires if SoundNames(some) then InBounds(d) && Taken(d, b, all, e) else !SoundNames(all)
    ensures Taken(c, a + b, all, e)
  {
    TakeAppend(c, a, b);
  }

  lemma {:induction false} LeafTakes(pre: seq<Event>, c: Composer, e: Event, doc: seq<Event>)
    requires After(pre, c) && (e.Alias? || e.Scalar?) && pre + [e] <= doc
    ensures TreeTaken(c, Leaf(e), NodeCount(pre) + 1, pre + [e], doc)
  {
    TakeOne(c, e);
    Snoc(pre, e);
    SoundSnoc(pre, e);
    if e.Alias? {
      TakesAlias(pre, c, e);
      if Fits(pre, e) {
        TargetStays(pre, doc, e.name);
        var nodes := WithChild(c.nodes, c.ctx, Target(pre, e.name));
        assert nodes + [] == nodes;
      }
    } else {
      TakesNode(pre, c, e);
    }
  }

  /** A collection that is open, with the children so far. */
  ghost function WithKids(before: seq<Node>, ctx: seq<nat>, start: Event, kids: seq<Tree>, n: nat, all: seq<Event>,
                          doc: seq<Event>): Composer
    requires IsStart(start) && n <= |kids|
  {
    var i := |before| + 1;
    Composer(before + [NodeFor(start, RefsOf(kids, n, i + 1, doc))] + NodesOfAll(kids, n, i + 1, doc), AnchorsIn(all),
             ctx + [i])
  }

  ghost predicate NoZero(s: seq<nat>) {
    forall k | 0 <= k < |s| :: s[k] != 0
  }

  ghost predicate Outside(pre: seq<Event>, before: seq<Node>, ctx: seq<nat>) {
    SoundNames(pre) && NodeCount(pre) == |before| + 1 && forall k | 0 <= k < |ctx| :: 1 <= ctx[k] <= |before|
  }

  ghost predicate KidsTaken(c: Composer, before: seq<Node>, ctx: seq<nat>, start: Event, kids: seq<Tree>, n: nat,
                            all: seq<Event>, doc: seq<Event>)
    requires InBounds(c) && IsStart(start) && n <= |kids|
  {
    && (SoundNames(all) ==> NoZero(RefsOf(kids, n, |before| + 2, doc)))
    && Taken(c, FlatAll(kids, n), all, WithKids(before, ctx, start, kids, n, all, doc))
  }

  lemma {:induction false} AfterKids(pre: seq<Event>, before: seq<Node>, ctx: seq<nat>, start: Event, kids: seq<Tree>,
                                     n: nat, all: seq<Event>, doc: seq<Event>)
    requires IsStart(start) && AllProper(kids) && n <= |kids| && Outside(pre, before, ctx)
    requires all == pre + FlatAll(kids, n) && SoundNames(all)
    ensures After(all, WithKids(before, ctx, start, kids, n, all, doc))
    ensures NodeCount(all) == |before| + 1 + CountAll(kids, n)
  {
    SizedAll(kids, n, |before| + 2, doc);
    CountFlatAll(pre, kids, n);
    AnchorsBounded(all);
  }

  lemma {:induction false} PairedSnoc(refs: seq<nat>, r: nat)
    requires NoZero(refs)
    ensures var p := Paired(refs); var last := |p| - 1;
      Paired(refs + [r]) == if p != [] && p[last].key != 0 && p[last].value == 0
                            then p[..last] + [p[last].(value := r)] else p + [Pair(r, 0)]
  {
    var p := Paired(refs);
    if |refs| % 2 == 1 {
      assert p[|p| - 1] == Pair(refs[|refs| - 1], 0);
    } else if refs != [] {
      assert p[|p| - 1].value == refs[|refs| - 1];
    }
  }

  lemma {:induction false} NodeGrows(start: Event, refs: seq<nat>, r: nat)
    requires IsStart(start) && NoZero(refs)
    ensures AddChild(NodeFor(start, refs), r) == NodeFor(start, refs + [r])
  {
    if start.MappingStart? {
      PairedSnoc(refs, r);
    }
  }

  lemma {:induction false} InnerChild(before: seq<Node>, node: Node, more: seq<Node>, ctx: seq<nat>, index: nat)
    requires !node.ScalarNode?
    ensures WithChild(before + [node] + more, ctx + [|before| + 1], index) ==
            before + [AddChild(node, index)] + more
  {}

  lemma {:induction false} KidNodes(before: seq<Node>, start: Event, refs: seq<nat>, more: seq<Node>, ctx: seq<nat>,
                                    r: nat, last: seq<Node>)
    requires IsStart(start) && NoZero(refs)
    ensures WithChild(before + [NodeFor(start, refs)] + more, ctx + [|before| + 1], r) + last ==
            before + [NodeFor(start, refs + [r])] + (more + last)
  {
    NodeGrows(start, refs, r);
    InnerChild(before, NodeFor(start, refs), more, ctx, r);
    Regroup(before + [NodeFor(start, refs + [r])], more, last);
  }

  lemma {:induction false} Regroup<T>(a: seq<T>, b: seq<T>, c: seq<T>)
    ensures a + b + c == a + (b + c)
  {}

  /** One more child. */
  lemma {:induction false} KidTakes(before: seq<Node>, ctx: seq<nat>, start: Event, kids: seq<Tree>, n: nat,
                                    some: seq<Event>, all: seq<Event>, doc: seq<Event>)
    requires IsStart(start) && 0 < n <= |kids| && NoZero(RefsOf(kids, n - 1, |before| + 2, doc))
    ensures var c := WithKids(before, ctx, start, kids, n - 1, some, doc);
      && TakesChild(c.nodes, c.ctx)
      && WithTree(c, kids[n - 1], |before| + 2 + CountAll(kids, n - 1), all, doc)
         == WithKids(before, ctx, start, kids, n, all, doc)
  {
    var t, first := kids[n - 1], |before| + 2 + CountAll(kids, n - 1);
    var refs, more := RefsOf(kids, n - 1, |before| + 2, doc), NodesOfAll(kids, n - 1, |before| + 2, doc);
    KidNodes(before, start, refs, more, ctx, RefOf(t, first, doc), NodesOf(t, first, doc));
  }

  lemma {:induction false} NoZeroSnoc(kids: seq<Tree>, n: nat, first: nat, doc: seq<Event>)
    requires 0 < n <= |kids| && NoZero(RefsOf(kids, n - 1, first, doc))
    requires RefOf(kids[n - 1], first + CountAll(kids, n - 1), doc) != 0
    ensures NoZero(RefsOf(kids, n, first, doc))
  {}

  /** `some` is all before the last child, `all` everything, `d` the state between them and `e` the one at the end. */
  lemma {:induction false} KidJoins(c: Composer, before: seq<Node>, ctx: seq<nat>, start: Event, kids: seq<Tree>,
                                    n: nat, some: seq<Event>, all: seq<Event>, doc: seq<Event>, d: Composer,
                                    e: Composer)
    requires InBounds(c) && IsStart(start) && 0 < n <= |kids|
    requires d == WithKids(before, ctx, start, kids, n - 1, some, doc)
    requires e == WithKids(before, ctx, start, kids, n, all, doc)
    requires Taken(c, FlatAll(kids, n - 1), some, d)
    requires SoundNames(all) ==> NoZero(RefsOf(kids, n, |before| + 2, doc))
    requires if SoundNames(some) then InBounds(d) && Taken(d, Flat(kids[n - 1]), all, e) else !SoundNames(all)
    ensures KidsTaken(c, before, ctx, start, kids, n, all, doc)
  {
    TakenOn(c, FlatAll(kids, n - 1), Flat(kids[n - 1]), some, all, d, e);
  }

  lemma {:induction false} KidEnds(before: seq<Node>, ctx: seq<nat>, start: Event, kids: seq<Tree>, n: nat,
                                   some: seq<Event>, all: seq<Event>, doc: seq<Event>, d: Composer, e: Composer)
    requires IsStart(start) && 0 < n <= |kids| && NoZero(RefsOf(kids, n - 1, |before| + 2, doc))
    requires d == WithKids(before, ctx, start, kids, n - 1, some, doc) && InBounds(d) && TakesChild(d.nodes, d.ctx)
    requires TreeTaken(d, kids[n - 1], |before| + 2 + CountAll(kids, n - 1), all, doc)
    requires e == WithKids(before, ctx, start, kids, n, all, doc)
    ensures (SoundNames(all) ==> NoZero(RefsOf(kids, n, |before| + 2, doc))) && Taken(d, Flat(kids[n - 1]), all, e)
  {
    KidTakes(before, ctx, start, kids, n, some, all, doc);
    if SoundNames(all) {
      NoZeroSnoc(kids, n, |before| + 2, doc);
    }
  }

  lemma {:induction false} KidNext(c: Composer, before: seq<Node>, ctx: seq<nat>, start: Event, kids: seq<Tree>,
                                   n: nat, some: seq<Event>, all: seq<Event>, doc: seq<Event>, d: Composer, e: Composer)
    requires InBounds(c) && IsStart(start) && 0 < n <= |kids| && SoundNames(some)
    requires KidsTaken(c, before, ctx, start, kids, n - 1, some, doc)
    requires d == WithKids(before, ctx, start, kids, n - 1, some, doc) && InBounds(d) && TakesChild(d.nodes, d.ctx)
    requires TreeTaken(d, kids[n - 1], |before| + 2 + CountAll(kids, n - 1), all, doc)
    requires e == WithKids(before, ctx, start, kids, n, all, doc)
    ensures KidsTaken(c, before, ctx, start, kids, n, all, doc)
  {
    KidEnds(before, ctx, start, kids, n, some, all, doc, d, e);
    KidJoins(c, before, ctx, start, kids, n, some, all, doc, d, e);
  }

  lemma {:induction false} KidFails(c: Composer, before: seq<Node>, ctx: seq<nat>, start: Event, kids: seq<Tree>,
                                    n: nat, some: seq<Event>, all: seq<Event>, doc: seq<Event>)
    requires InBounds(c) && IsStart(start) && 0 < n <= |kids| && !SoundNames(some) && some <= all
    requires KidsTaken(c, before, ctx, start, kids, n - 1, some, doc)
    ensures KidsTaken(c, before, ctx, start, kids, n, all, doc)
  {
    if SoundNames(all) {
      SoundPrefix(some, all);
    }
    KidJoins(c, before, ctx, start, kids, n, some, all, doc, WithKids(before, ctx, start, kids, n - 1, some, doc),
             WithKids(before, ctx, start, kids, n, all, doc));
  }

  /** `pre` is all before the first child. */
  lemma {:induction false} KidStep(pre: seq<Event>, c: Composer, before: seq<Node>, ctx: seq<nat>, start: Event,
                                   kids: seq<Tree>, n: nat, some: seq<Event>, all: seq<Event>, doc: seq<Event>)
    requires InBounds(c) && IsStart(start) && AllProper(kids) && 0 < n <= |kids| && Outside(pre, before, ctx)
    requires KidsTaken(c, before, ctx, start, kids, n - 1, some, doc)
    requires some == pre + FlatAll(kids, n - 1) && all == some + Flat(kids[n - 1]) && all <= doc
    ensures KidsTaken(c, before, ctx, start, kids, n, all, doc)
    decreases kids, n, 0
  {
    if SoundNames(some) {
      var d := WithKids(before, ctx, start, kids, n - 1, some, doc);
      AfterKids(pre, before, ctx, start, kids, n - 1, some, doc);
      TreeTakes(some, d, kids[n - 1], all, doc);
      KidNext(c, before, ctx, start, kids, n, some, all, doc, d, WithKids(before, ctx, start, kids, n, all, doc));
    } else {
      KidFails(c, before, ctx, start, kids, n, some, all, doc);
    }
  }

  lemma {:induction false} KidsTake(pre: seq<Event>, c: Composer, before: seq<Node>, ctx: seq<nat>, start: Event,
                                    kids: seq<Tree>, n: nat, all: seq<Event>, doc: seq<Event>)
    requires IsStart(start) && AllProper(kids) && n <= |kids| && Outside(pre, before, ctx) && InBounds(c)
    requires c == WithKids(before, ctx, start, kids, 0, pre, doc) && all == pre + FlatAll(kids, n) && all <= doc
    ensures KidsTaken(c, before, ctx, start, kids, n, all, doc)
    decreases kids, n, 1
  {
    if n == 0 {
      assert all == pre;
    } else {
      var some := pre + FlatAll(kids, n - 1);
      Regroup(pre, FlatAll(kids, n - 1), Flat(kids[n - 1]));
      KidsTake(pre, c, before, ctx, start, kids, n - 1, some, doc);
      KidStep(pre, c, before, ctx, start, kids, n, some, all, doc);
    }
  }

  lemma {:induction false} TreeTakes(pre: seq<Event>, c: Composer, t: Tree, all: seq<Event>, doc: seq<Event>)
    requires After(pre, c) && Proper(t) && all == pre + Flat(t) && all <= doc
    ensures TreeTaken(c, t, NodeCount(pre) + 1, all, doc)
    decreases t, 0
  {
    match t
    case Leaf(e) => LeafTakes(pre, c, e, doc);
    case Branch(start, kids) =>
      var open, some := pre + [start], pre + [start] + FlatAll(kids, |kids|);
      Around(pre, start, FlatAll(kids, |kids|), EndOf(start));
      if Fits(pre, start) {
        var before := WithChild(c.nodes, c.ctx, NodeCount(pre) + 1);
        var c1 := WithKids(before, c.ctx, start, kids, 0, open, doc);
        StartTakes(pre, c, start, kids, open, before, doc);
        KidsTake(open, c1, before, c.ctx, start, kids, |kids|, some, doc);
        BranchTakes(c, c1, before, start, kids, some, all, doc);
      } else {
        BranchFails(pre, c, start, kids, all, doc);
      }
  }

  lemma {:induction false} BranchTakes(c: Composer, c1: Composer, before: seq<Node>, start: Event, kids: seq<Tree>,
                                       some: seq<Event>, all: seq<Event>, doc: seq<Event>)
    requires InBounds(c) && InBounds(c1) && TakesChild(c.nodes, c.ctx) && IsStart(start)
    requires Take(c, start) == Loaded(c1) && KidsTaken(c1, before, c.ctx, start, kids, |kids|, some, doc)
    requires all == some + [EndOf(start)] && before == WithChild(c.nodes, c.ctx, |before| + 1)
    ensures TreeTaken(c, Branch(start, kids), |before| + 1, all, doc)
  {
    TakeAround(c, start, FlatAll(kids, |kids|), EndOf(start));
    EndTakes(c1, c.ctx, before, start, kids, some, all, doc);
  }

  lemma {:induction false} BranchFails(pre: seq<Event>, c: Composer, start: Event, kids: seq<Tree>, all: seq<Event>,
                                       doc: seq<Event>)
    requires After(pre, c) && IsStart(start) && !Fits(pre, start) && pre + [start] <= all
    ensures TreeTaken(c, Branch(start, kids), NodeCount(pre) + 1, all, doc)
  {
    TakeAround(c, start, FlatAll(kids, |kids|), EndOf(start));
    TakesNode(pre, c, start);
    SoundSnoc(pre, start);
    if SoundNames(all) {
      SoundPrefix(pre + [start], all);
    }
  }

  lemma {:induction false} TakeAround(c: Composer, a: Event, body: seq<Event>, z: Event)
    requires InBounds(c)
    ensures TakeAll(c, [a] + body + [z]) ==
            var r := Take(c, a);
            if !r.Loaded? then r
            else
              var q := TakeAll(r.state, body);
              if q.Loaded? then Take(q.state, z) else q
  {
    TakeOne(c, a);
    TakeAppend(c, [a], body);
    TakeAppend(c, [a] + body, [z]);
    var r := TakeAll(c, [a] + body);
    if r.Loaded? {
      TakeOne(r.state, z);
    }
  }

  lemma {:induction false} StartTakes(pre: seq<Event>, c: Composer, start: Event, kids: seq<Tree>, open: seq<Event>,
                                      before: seq<Node>, doc: seq<Event>)
    requires After(pre, c) && IsStart(start) && Fits(pre, start)
    requires open == pre + [start] && before == WithChild(c.nodes, c.ctx, NodeCount(pre) + 1)
    ensures var c1 := WithKids(before, c.ctx, start, kids, 0, open, doc);
            Take(c, start) == Loaded(c1) && After(open, c1) && Outside(open, before, c.ctx)
  {
    TakesNode(pre, c, start);
    Snoc(pre, start);
    SoundSnoc(pre, start);
    AnchorsBounded(open);
    var node := NodeFor(start, []);
    assert before + [node] + [] == before + [node];
  }

  lemma {:induction false} EndTakes(c: Composer, ctx: seq<nat>, before: seq<Node>, start: Event, kids: seq<Tree>,
                                    some: seq<Event>, all: seq<Event>, doc: seq<Event>)
    requires InBounds(c) && IsStart(start) && all == some + [EndOf(start)]
    requires KidsTaken(c, before, ctx, start, kids, |kids|, some, doc)
    ensures var r := TakeAll(c, FlatAll(kids, |kids|));
      if !SoundNames(all) then r == Failed
      else r.Loaded? && Take(r.state, EndOf(start)) ==
           Loaded(Composer(before + NodesOf(Branch(start, kids), |before| + 1, doc), AnchorsIn(all), ctx))
  {
    if SoundNames(all) {
      SoundPrefix(some, all);
      Snoc(some, EndOf(start));
      CloseTakes(ctx, before, start, kids, some, doc);
    } else if SoundNames(some) {
      SoundSnoc(some, EndOf(start));
    }
  }

  lemma {:induction false} CloseTakes(ctx: seq<nat>, before: seq<Node>, start: Event, kids: seq<Tree>,
                                      some: seq<Event>, doc: seq<Event>)
    requires IsStart(start) && InBounds(WithKids(before, ctx, start, kids, |kids|, some, doc))
    ensures Take(WithKids(before, ctx, start, kids, |kids|, some, doc), EndOf(start)) ==
            Loaded(Composer(before + NodesOf(Branch(start, kids), |before| + 1, doc), AnchorsIn(some), ctx))
  {
    var k := WithKids(before, ctx, start, kids, |kids|, some, doc);
    assert k.ctx[..|ctx|] == ctx;
    var node, more := NodeFor(start, RefsOf(kids, |kids|, |before| + 2, doc)),
                      NodesOfAll(kids, |kids|, |before| + 2, doc);
    Regroup(before, [node], more);
  }

  // ---- A document ----

  lemma {:induction false} NoDocumentEnd(t: Tree)
    requires Proper(t)
    ensures forall e | e in Flat(t) :: !e.DocumentEnd?
    decreases t, 0
  {
    if t.Branch? {
      NoDocumentEnds(t.kids, |t.kids|);
    }
  }

  lemma {:induction false} NoDocumentEnds(kids: seq<Tree>, n: nat)
    requires AllProper(kids) && n <= |kids|
    ensures forall e | e in FlatAll(kids, n) :: !e.DocumentEnd?
    decreases kids, n
  {
    if n > 0 {
      NoDocumentEnds(kids, n - 1);
      NoDocumentEnd(kids[n - 1]);
    }
  }

  lemma {:induction false} AfterNone(none: seq<Event>, c: Composer)
    requires none == [] && c == EMPTY
    ensures After(none, c) && NodeCount(none) == 0
  {}

  lemma {:induction false} RootAlone(c: Composer, root: Tree, first: nat, doc: seq<Event>)
    requires c == EMPTY
    ensures TakesChild(c.nodes, c.ctx)
    ensures WithTree(c, root, first, doc, doc) == Composer(NodesOf(root, first, doc), AnchorsIn(doc), [])
  {
    var nodes := NodesOf(root, first, doc);
    assert [] + nodes == nodes;
  }

  lemma {:induction false} RootTakes(none: seq<Event>, c: Composer, root: Tree, first: nat, doc: seq<Event>)
    requires After(none, c) && NodeCount(none) + 1 == first && Proper(root) && none + Flat(root) == doc == Flat(root)
    ensures Taken(c, doc, doc, WithTree(c, root, first, doc, doc))
  {
    TreeTakes(none, c, root, doc, doc);
  }

  /** A document loads exactly if every alias comes after its anchor and no anchor comes twice; then its nodes are
      those of the tree. */
  lemma {:induction false} LoadsExactly(root: Tree, end: Event, rest: seq<Event>)
    requires Proper(root) && end.DocumentEnd?
    ensures var doc := Flat(root);
      LoadDocument(EMPTY, doc + [end] + rest) ==
        if SoundNames(doc) then Loaded(Composer(NodesOf(root, 1, doc), AnchorsIn(doc), [])) else Failed
  {
    NoDocumentEnd(root);
    LoadsBody(EMPTY, Flat(root), end, rest);
    assert [] + Flat(root) == Flat(root);
    AfterNone([], EMPTY);
    RootTakes([], EMPTY, root, 1, Flat(root));
    RootAlone(EMPTY, root, 1, Flat(root));
  }

  // ---- Any events ----

  function NodeEvents(events: seq<Event>): seq<Event> {
    if events == [] then []
    else
      var n := |events| - 1;
      NodeEvents(events[..n]) + if IsNode(events[n]) then [events[n]] else []
  }

  /** A node has the kind, the text and the style of its event, and its tag unless it has none or `!`. */
  predicate Alike(n: Node, e: Event) {
    match e
    case Scalar(_, tag, text, _, _, style) =>
      n.ScalarNode? && n.tag == TagOf(tag, "tag:yaml.org,2002:str") && n.text == text && n.style == style
    case SequenceStart(_, tag, _, style) =>
      n.SequenceNode? && n.tag == TagOf(tag, "tag:yaml.org,2002:seq") && n.style == style
    case MappingStart(_, tag, _, style) =>
      n.MappingNode? && n.tag == TagOf(tag, "tag:yaml.org,2002:map") && n.style == style
    case _ => false
  }

  ghost predicate AllAlike(nodes: seq<Node>, events: seq<Event>) {
    |nodes| == |events| && forall k | 0 <= k < |nodes| :: Alike(nodes[k], events[k])
  }

  lemma {:induction false} TakeAlike(c: Composer, e: Event, seen: seq<Event>)
    requires InBounds(c) && AllAlike(c.nodes, seen) && Take(c, e).Loaded?
    ensures AllAlike(Take(c, e).state.nodes, seen + if IsNode(e) then [e] else [])
  {
    if IsNode(e) {
      assert (seen + [e])[..|seen|] == seen;
      NodeNewAlike(c, e, seen + [e]);
    } else {
      assert seen + [] == seen;
    }
  }

  lemma {:induction false} NodeNewAlike(c: Composer, e: Event, more: seq<Event>)
    requires InBounds(c) && IsNode(e) && more != [] && AllAlike(c.nodes, more[..|more| - 1]) && more[|more| - 1] == e
    requires NodeNew(c, NodeOf(e), e.anchor).Loaded?
    ensures AllAlike(NodeNew(c, NodeOf(e), e.anchor).state.nodes, more)
  {
    var d := c.(nodes := c.nodes + [NodeOf(e)]);
    assert AllAlike(d.nodes, more);
    var r := Register(d, |c.nodes| + 1, e.anchor);
    AddAlike(r.state, |c.nodes| + 1, more);
  }

  lemma {:induction false} AddAlike(c: Composer, index: nat, seen: seq<Event>)
    requires InBounds(c) && AllAlike(c.nodes, seen) && NodeAdd(c, index).Loaded?
    ensures AllAlike(NodeAdd(c, index).state.nodes, seen)
  {}

  /** Whatever loads: the nodes are, in order, like the events of nodes. */
  lemma {:induction false} TakeAllAlike(events: seq<Event>)
    requires TakeAll(EMPTY, events).Loaded?
    ensures AllAlike(TakeAll(EMPTY, events).state.nodes, NodeEvents(events))
    decreases |events|
  {
    if events != [] {
      var n := |events| - 1;
      var pre, e := events[..n], events[n];
      assert events == pre + [e];
      TakeAppend(EMPTY, pre, [e]);
      TakeAllAlike(pre);
      var c := TakeAll(EMPTY, pre).state;
      TakeOne(c, e);
      TakeAlike(c, e, NodeEvents(pre));
    }
  }
}
