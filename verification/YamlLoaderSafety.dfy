/** On every event stream of the grammar the loader fails none of its assertions, and what it has loaded at
    the end of a document is a closed graph with complete pairs. */
module YamlLoaderSafety {
  import opened Options
  import opened YamlEvents
  import opened YamlGraph
  import opened YamlGrammar
  import L = YamlLoader
  import T = YamlTrees

  /** Child indices name nodes; only the value of a last pair may still be 0. */
  ghost predicate NodeWithin(node: Node, n: nat) {
    match node
    case ScalarNode(_, _, _) => true
    case SequenceNode(_, items, _) => AllWithin(items, n)
    case MappingNode(_, pairs, _) => forall k | 0 <= k < |pairs| :: 1 <= pairs[k].key <= n && pairs[k].value <= n
  }

  ghost predicate Whole(node: Node) {
    node.MappingNode? ==> L.Complete(node.pairs)
  }

  /** An open collection is as the grammar expects it. */
  ghost predicate FrameFits(node: Node, f: Frame) {
    match f
    case ItemFrame => node.SequenceNode?
    case KeyFrame => node.MappingNode? && L.Complete(node.pairs)
    case ValueFrame =>
      && node.MappingNode? && node.pairs != []
      && var n := |node.pairs| - 1; L.Complete(node.pairs[..n]) && node.pairs[n].key != 0 && node.pairs[n].value == 0
  }

  ghost predicate OpenAt(c: L.Composer, stack: seq<Frame>, k: nat)
    requires |c.ctx| == |stack|
  {
    k < |stack| ==>
      && 1 <= c.ctx[k] <= |c.nodes| && FrameFits(c.nodes[c.ctx[k] - 1], stack[k])
      && (k > 0 ==> c.ctx[k - 1] < c.ctx[k])
  }

  ghost predicate NodeAt(c: L.Composer, i: nat) {
    i < |c.nodes| ==> NodeWithin(c.nodes[i], |c.nodes|) && (i + 1 in c.ctx || Whole(c.nodes[i]))
  }

  ghost predicate AliasAt(c: L.Composer, i: nat) {
    i < |c.aliases| ==> 1 <= c.aliases[i].index <= |c.nodes|
  }

  ghost predicate Fits(c: L.Composer, stack: seq<Frame>) {
    && |c.ctx| == |stack| && (forall k: nat {:trigger OpenAt(c, stack, k)} :: OpenAt(c, stack, k))
    && (forall i: nat {:trigger NodeAt(c, i)} :: NodeAt(c, i))
    && (forall i: nat {:trigger AliasAt(c, i)} :: AliasAt(c, i))
  }

  lemma {:induction false} FitsInBounds(c: L.Composer, stack: seq<Frame>)
    requires Fits(c, stack)
    ensures L.InBounds(c)
  {
    forall k: nat | k < |c.ctx| ensures 1 <= c.ctx[k] <= |c.nodes| { assert OpenAt(c, stack, k); }
    forall k: nat | k < |c.aliases| ensures 1 <= c.aliases[k].index <= |c.nodes| { assert AliasAt(c, k); }
  }

  /** Open collections are numbered in the order in which they were opened. */
  lemma {:induction false} CtxIncreases(c: L.Composer, stack: seq<Frame>, i: nat, j: nat)
    requires Fits(c, stack) && i < j < |c.ctx|
    ensures c.ctx[i] < c.ctx[j]
    decreases j
  {
    assert OpenAt(c, stack, j);
    if i < j - 1 {
      CtxIncreases(c, stack, i, j - 1);
    }
  }

  lemma {:induction false} AddChildFits(node: Node, f: Frame, index: nat, n: nat)
    requires FrameFits(node, f) && NodeWithin(node, n) && 1 <= index <= n
    ensures var node' := L.AddChild(node, index);
      NodeWithin(node', n) && FrameFits(node', Advance([f])[0])
  {
    if f == ValueFrame {
      var m := |node.pairs| - 1;
      var pairs := L.AddChild(node, index).pairs;
      assert forall k | 0 <= k < m :: pairs[k] == node.pairs[..m][k];
    } else if f == KeyFrame {
      var pairs := L.AddChild(node, index).pairs;
      assert pairs[..|node.pairs|] == node.pairs;
    }
  }

  /** The innermost open collection is replaced by `node`, which fits `f`. */
  lemma {:induction false} UpdateOpen(c: L.Composer, stack: seq<Frame>, node: Node, f: Frame, k: nat)
    requires Fits(c, stack) && stack != [] && FrameFits(node, f) && 1 <= c.ctx[|stack| - 1] <= |c.nodes|
    ensures OpenAt(c.(nodes := c.nodes[c.ctx[|stack| - 1] - 1 := node]), stack[..|stack| - 1] + [f], k)
  {
    assert OpenAt(c, stack, k);
    if k < |stack| - 1 {
      CtxIncreases(c, stack, k, |stack| - 1);
    }
  }

  lemma {:induction false} UpdateFits(c: L.Composer, stack: seq<Frame>, node: Node, f: Frame)
    requires Fits(c, stack) && stack != [] && FrameFits(node, f) && NodeWithin(node, |c.nodes|)
    requires 1 <= c.ctx[|stack| - 1] <= |c.nodes|
    ensures Fits(c.(nodes := c.nodes[c.ctx[|stack| - 1] - 1 := node]), stack[..|stack| - 1] + [f])
  {
    var parent := c.ctx[|stack| - 1];
    var c', stack' := c.(nodes := c.nodes[parent - 1 := node]), stack[..|stack| - 1] + [f];
    forall k: nat ensures OpenAt(c', stack', k) { UpdateOpen(c, stack, node, f, k); }
    forall i: nat ensures NodeAt(c', i) {
      assert NodeAt(c, i);
      assert parent in c.ctx;
    }
    forall i: nat ensures AliasAt(c', i) { assert AliasAt(c, i); }
  }

  /** A node that joins the innermost open collection. */
  lemma {:induction false} NodeAddFits(c: L.Composer, stack: seq<Frame>, index: nat)
    requires Fits(c, stack) && 1 <= index <= |c.nodes|
    ensures L.InBounds(c)
    ensures var r := L.NodeAdd(c, index); r.Loaded? && Fits(r.state, Advance(stack)) && r.state.aliases == c.aliases
  {
    FitsInBounds(c, stack);
    if stack != [] {
      var top := |stack| - 1;
      assert OpenAt(c, stack, top);
      var parent := c.ctx[top];
      assert NodeAt(c, parent - 1);
      AddChildFits(c.nodes[parent - 1], stack[top], index, |c.nodes|);
      var f := Advance([stack[top]])[0];
      UpdateFits(c, stack, L.AddChild(c.nodes[parent - 1], index), f);
      assert Advance(stack) == stack[..top] + [f];
    } else {
      assert Advance(stack) == stack;
    }
  }

  /** A new node, and its anchor. */
  lemma {:induction false} RegisterFits(c: L.Composer, stack: seq<Frame>, node: Node, anchor: Option<string>)
    requires Fits(c, stack) && Whole(node) && NodeWithin(node, 0)
    ensures var c1 := c.(nodes := c.nodes + [node]);
      && L.InBounds(c1) && var r := L.Register(c1, |c1.nodes|, anchor);
      !r.Asserted? && (r.Loaded? ==> Fits(r.state, stack) && r.state.nodes == c1.nodes)
  {
    FitsInBounds(c, stack);
    var c1 := c.(nodes := c.nodes + [node]);
    var r := L.Register(c1, |c1.nodes|, anchor);
    if r.Loaded? {
      var c' := r.state;
      forall k: nat ensures OpenAt(c', stack, k) { assert OpenAt(c, stack, k); }
      forall i: nat ensures NodeAt(c', i) { assert NodeAt(c, i); }
      forall i: nat ensures AliasAt(c', i) { assert AliasAt(c, i); }
    }
  }

  lemma {:induction false} NodeNewFits(c: L.Composer, stack: seq<Frame>, node: Node, anchor: Option<string>)
    requires Fits(c, stack) && Whole(node) && NodeWithin(node, 0)
    ensures L.InBounds(c) && var r := L.NodeNew(c, node, anchor);
      !r.Asserted? && (r.Loaded? ==>
              Fits(r.state, Advance(stack)) && |r.state.nodes| == |c.nodes| + 1 && r.state.nodes[|c.nodes|] == node)
  {
    FitsInBounds(c, stack);
    RegisterFits(c, stack, node, anchor);
    var c1 := c.(nodes := c.nodes + [node]);
    var r := L.Register(c1, |c1.nodes|, anchor);
    if r.Loaded? {
      NodeAddFits(r.state, stack, |c1.nodes|);
      if stack != [] {
        assert OpenAt(c, stack, |stack| - 1);
      }
    }
  }

  /** A new collection is opened. */
  lemma {:induction false} OpenFits(c: L.Composer, stack: seq<Frame>, f: Frame)
    requires Fits(c, stack) && c.nodes != [] && FrameFits(c.nodes[|c.nodes| - 1], f)
    requires forall k | 0 <= k < |c.ctx| :: c.ctx[k] < |c.nodes|
    ensures Fits(c.(ctx := c.ctx + [|c.nodes|]), stack + [f])
  {
    var c', stack' := c.(ctx := c.ctx + [|c.nodes|]), stack + [f];
    forall k: nat ensures OpenAt(c', stack', k) { assert OpenAt(c, stack, k); }
    forall i: nat ensures NodeAt(c', i) { assert NodeAt(c, i); }
    forall i: nat ensures AliasAt(c', i) { assert AliasAt(c, i); }
  }

  lemma {:induction false} CloseFits(c: L.Composer, stack: seq<Frame>, f: Frame)
    requires Fits(c, stack + [f]) && f != ValueFrame
    ensures L.InBounds(c) && var r := L.Close(c, f == ItemFrame);
            r.Loaded? && Fits(r.state, stack) && r.state.nodes == c.nodes
  {
    var s := stack + [f];
    FitsInBounds(c, s);
    var top := |stack|;
    assert OpenAt(c, s, top);
    var c' := c.(ctx := c.ctx[..top]);
    forall k: nat ensures OpenAt(c', stack, k) { assert OpenAt(c, s, k); }
    forall i: nat ensures NodeAt(c', i) {
      assert NodeAt(c, i);
      if i < |c.nodes| && i + 1 in c.ctx && i + 1 != c.ctx[top] {
        var k :| 0 <= k < |c.ctx| && c.ctx[k] == i + 1;
        assert c'.ctx[k] == i + 1;
      }
    }
    forall i: nat ensures AliasAt(c', i) { assert AliasAt(c, i); }
  }

  // ---- Whole documents ----

  ghost predicate FitsPlace(c: L.Composer, p: Place) {
    match p
    case Root => c.nodes == [] && Fits(c, [])
    case Inside(stack) => stack != [] && c.nodes != [] && Fits(c, stack)
    case Done => c.nodes != [] && Fits(c, [])
    case _ => false
  }

  function StackOf(p: Place): seq<Frame> {
    if p.Inside? then p.stack else []
  }

  lemma {:induction false} AliasFits(c: L.Composer, p: Place, name: string)
    requires FitsPlace(c, p) && WantsNode(p)
    ensures L.InBounds(c) && var r := L.Take(c, Alias(name));
            !r.Asserted? && (r.Loaded? ==> FitsPlace(r.state, Open(Beyond(p))))
  {
    FitsInBounds(c, StackOf(p));
    L.FindAliasIs(c.aliases, name);
    var found := L.FindAlias(c.aliases, name);
    if found.Some? {
      var k :| 0 <= k < |c.aliases| && c.aliases[k] == L.AliasData(name, found.value);
      assert AliasAt(c, k);
      NodeAddFits(c, StackOf(p), found.value);
    }
  }

  lemma {:induction false} ScalarFits(c: L.Composer, p: Place, e: Event)
    requires FitsPlace(c, p) && WantsNode(p) && e.Scalar?
    ensures L.InBounds(c) && var r := L.Take(c, e); !r.Asserted? && (r.Loaded? ==> FitsPlace(r.state, Open(Beyond(p))))
  {
    NodeNewFits(c, StackOf(p), L.NodeOf(e), e.anchor);
  }

  lemma {:induction false} StartFits(c: L.Composer, p: Place, e: Event)
    requires FitsPlace(c, p) && WantsNode(p) && (e.SequenceStart? || e.MappingStart?)
    ensures L.InBounds(c) && var r := L.Take(c, e);
      !r.Asserted? && (r.Loaded? ==> FitsPlace(r.state, Inside(Beyond(p) +
          [if e.SequenceStart? then ItemFrame else KeyFrame])))
  {
    NodeNewFits(c, StackOf(p), L.NodeOf(e), e.anchor);
    var r := L.NodeNew(c, L.NodeOf(e), e.anchor);
    if r.Loaded? {
      forall k: nat | k < |c.ctx| ensures c.ctx[k] < |r.state.nodes| { assert OpenAt(c, StackOf(p), k); }
      OpenFits(r.state, Beyond(p), if e.SequenceStart? then ItemFrame else KeyFrame);
    }
  }

  lemma {:induction false} EndFits(c: L.Composer, p: Place, e: Event)
    requires FitsPlace(c, p) && (e.SequenceEnd? || e.MappingEnd?) &&
             Tops(p, if e.SequenceEnd? then ItemFrame else KeyFrame)
    ensures L.InBounds(c) && var r := L.Take(c, e); r.Loaded? && FitsPlace(r.state, Open(p.stack[..|p.stack| - 1]))
  {
    var init, f := p.stack[..|p.stack| - 1], p.stack[|p.stack| - 1];
    assert p.stack == init + [f];
    CloseFits(c, init, f);
  }

  /** One event that the grammar allows inside a document. */
  lemma {:induction false} TakeFits(c: L.Composer, p: Place, e: Event)
    requires FitsPlace(c, p) && Next(p, e).Some? && !e.DocumentEnd?
    ensures L.InBounds(c) && var r := L.Take(c, e); !r.Asserted? && (r.Loaded? ==> FitsPlace(r.state, Next(p, e).value))
  {
    match e
    case Alias(name) => AliasFits(c, p, name);
    case Scalar(_, _, _, _, _, _) => ScalarFits(c, p, e);
    case SequenceStart(_, _, _, _) => StartFits(c, p, e);
    case MappingStart(_, _, _, _) => StartFits(c, p, e);
    case SequenceEnd => EndFits(c, p, e);
    case MappingEnd => EndFits(c, p, e);
  }

  /** However far a document has been read, no assertion has failed. */
  lemma {:induction false} NeverAsserts(events: seq<Event>)
    requires Follow(Root, events).Some? && forall e | e in events :: !e.DocumentEnd?
    ensures L.InBounds(L.EMPTY) && var r := L.TakeAll(L.EMPTY, events);
      !r.Asserted? && (r.Loaded? ==> FitsPlace(r.state, Follow(Root, events).value))
    decreases |events|
  {
    if events == [] {
      assert forall k: nat :: OpenAt(L.EMPTY, [], k);
    } else {
      var n := |events| - 1;
      NeverAsserts(events[..n]);
      assert events == events[..n] + [events[n]];
      L.TakeAppend(L.EMPTY, events[..n], [events[n]]);
      var r := L.TakeAll(L.EMPTY, events[..n]);
      if r.Loaded? {
        TakeFits(r.state, Follow(Root, events[..n]).value, events[n]);
        L.TakeOne(r.state, events[n]);
      }
    }
  }

  lemma {:induction false} FlattenWithin(pairs: seq<Pair>, n: nat)
    requires forall k | 0 <= k < |pairs| :: 1 <= pairs[k].key <= n && 1 <= pairs[k].value <= n
    ensures AllWithin(Flatten(pairs), n)
    decreases |pairs|
  {
    if pairs != [] {
      FlattenWithin(pairs[..|pairs| - 1], n);
    }
  }

  /** A document that has been loaded: all collections are closed, there is a root, every child index names
      a node and every pair has a key and a value. */
  lemma {:induction false} LoadedDocument(events: seq<Event>)
    requires Follow(Root, events) == Some(Done) && forall e | e in events :: !e.DocumentEnd?
    ensures L.InBounds(L.EMPTY) && var r := L.TakeAll(L.EMPTY, events);
      && !r.Asserted?
      && (r.Loaded? ==> r.state.ctx == [] && r.state.nodes != [] && InRange(r.state.nodes)
                        && forall k | 0 <= k < |r.state.nodes| :: Whole(r.state.nodes[k]))
  {
    NeverAsserts(events);
    var r := L.TakeAll(L.EMPTY, events);
    if r.Loaded? {
      var nodes := r.state.nodes;
      forall k | 0 <= k < |nodes| ensures AllWithin(Children(nodes[k]), |nodes|) && Whole(nodes[k]) {
        assert NodeAt(r.state, k);
        if nodes[k].MappingNode? {
          FlattenWithin(nodes[k].pairs, |nodes|);
        }
      }
    }
  }

  lemma {:induction false} FlatBody(t: T.Tree)
    requires T.Proper(t)
    ensures forall e | e in T.Flat(t) :: !e.DocumentEnd?
    decreases t, 0
  {
    if t.Branch? {
      FlatBodies(t.kids, |t.kids|);
    }
  }

  lemma {:induction false} FlatBodies(kids: seq<T.Tree>, n: nat)
    requires T.AllProper(kids) && n <= |kids|
    ensures forall e | e in T.FlatAll(kids, n) :: !e.DocumentEnd?
    decreases kids, n
  {
    if n > 0 {
      FlatBodies(kids, n - 1);
      FlatBody(kids[n - 1]);
    }
  }

  /** Whatever document of a parsed stream the loader is given, with the rest of the stream after it, no
      assertion fails, and what is loaded is a closed graph with complete pairs. */
  lemma {:induction false} ParsedDocumentLoads(d: T.Document, rest: seq<Event>)
    requires T.Proper(d.root)
    ensures L.InBounds(L.EMPTY) && var r := L.LoadDocument(L.EMPTY,
            T.Flat(d.root) + [DocumentEnd(d.endImplicit)] + rest);
      && !r.Asserted?
      && (r.Loaded? ==> r.state.ctx == [] && r.state.nodes != [] && InRange(r.state.nodes)
                        && forall k | 0 <= k < |r.state.nodes| :: Whole(r.state.nodes[k]))
  {
    FlatBody(d.root);
    T.TreeFollows(Root, d.root);
    L.LoadsBody(L.EMPTY, T.Flat(d.root), DocumentEnd(d.endImplicit), rest);
    LoadedDocument(T.Flat(d.root));
  }
}
