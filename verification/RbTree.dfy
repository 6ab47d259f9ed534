/** The intrusive red-black tree: nodes with left, right and parent links and a colour, rebalanced
    in place.  `Tree.shape` is the value that the links spell out; every operation is specified by it.
    The two mirror images of each case are told apart by a flag that says which child is meant. */
module RbTree {
  import opened RbShape

  class Node {
    var left: Node?
    var right: Node?
    var parent: Node?
    var black: bool

    constructor ()
    {
      left, right, parent, black := null, null, null, false;
    }

    function Child(left: bool): Node?
      reads this
    {
      if left then this.left else right
    }

    method SetChild(left: bool, x: Node?)
      modifies this`left, this`right
      ensures Child(left) == x && Child(!left) == old(Child(!left))
    {
      if left {
        this.left := x;
      } else {
        right := x;
      }
    }
  }

  /** What a node holds, and what the nodes of a tree hold. */
  datatype Cell = Cell(left: Node?, right: Node?, parent: Node?, black: bool)

  type Cells = map<Node, Cell>

  ghost predicate AreCells(m: Cells, s: set<Node>)
    reads s
  {
    m.Keys == s && forall n {:trigger m[n]} | n in s :: m[n] == Cell(n.left, n.right, n.parent, n.black)
  }

  ghost function Snap(s: set<Node>): (m: Cells)
    reads s
    ensures AreCells(m, s)
  {
    assert AreCells(map n | n in s :: Cell(n.left, n.right, n.parent, n.black), s);
    var m :| AreCells(m, s); m
  }

  ghost function SideCell(left: bool, near: Node?, far: Node?, parent: Node?, black: bool): Cell {
    if left then Cell(near, far, parent, black) else Cell(far, near, parent, black)
  }

  ghost function RootOf(t: Shape<Node>): Node? {
    if t.Leaf? then null else t.node
  }

  ghost function ParentOf(c: Ctx<Node>): Node? {
    if c.Top? then null else c.node
  }

  /** The links and colours below `p` spell out `t`. */
  ghost predicate Linked(m: Cells, t: Shape<Node>, p: Node?) {
    match t
    case Leaf => true
    case Bin(l, n, b, r) =>
      && n in m && m[n] == Cell(RootOf(l), RootOf(r), p, b)
      && Linked(m, l, n) && Linked(m, r, n)
  }

  /** The links above a hole in which `x` hangs spell out `c`, up to the root pointer. */
  ghost predicate CtxLinked(m: Cells, root: Node?, c: Ctx<Node>, x: Node?) {
    match c
    case Top => root == x
    case InL(up, n, b, r) =>
      && n in m && m[n] == Cell(x, RootOf(r), ParentOf(up), b)
      && Linked(m, r, n) && CtxLinked(m, root, up, n)
    case InR(up, l, n, b) =>
      && n in m && m[n] == Cell(RootOf(l), x, ParentOf(up), b)
      && Linked(m, l, n) && CtxLinked(m, root, up, n)
  }

  /** The tree is `t` inside `c`. */
  ghost predicate At(m: Cells, root: Node?, c: Ctx<Node>, t: Shape<Node>) {
    && CtxDistinct(c) && Distinct(t) && CtxNodes(c) !! Nodes(t)
    && CtxLinked(m, root, c, RootOf(t)) && Linked(m, t, ParentOf(c))
  }

  lemma {:induction false} ZipAt(m: Cells, root: Node?, c: Ctx<Node>, t: Shape<Node>)
    ensures At(m, root, c, t) <==> At(m, root, Top, Zip(c, t))
    decreases c
  {
    match c
    case Top =>
    case InL(up, n, b, r) => ZipAt(m, root, up, Bin(t, n, b, r));
    case InR(up, l, n, b) => ZipAt(m, root, up, Bin(l, n, b, t));
  }

  /** Moving the hole down to a child or up to its parent. */
  lemma {:induction false} Move(m: Cells, root: Node?, c: Ctx<Node>, l: Shape<Node>, n: Node, b: bool, r: Shape<Node>)
    ensures At(m, root, c, Bin(l, n, b, r)) <==> At(m, root, InL(c, n, b, r), l)
    ensures At(m, root, c, Bin(l, n, b, r)) <==> At(m, root, InR(c, l, n, b), r)
  {}

  lemma {:induction false} MoveSide(m: Cells, root: Node?, left: bool, c: Ctx<Node>, near: Shape<Node>, n: Node,
                                    b: bool, far: Shape<Node>)
    ensures var t := Fork(left, near, n, b, far);
            && (At(m, root, c, t) <==> At(m, root, Hole(left, c, n, b, far), near))
            && (At(m, root, c, t) <==> At(m, root, Hole(!left, c, n, b, near), far))
  {
    if left {
      Move(m, root, c, near, n, b, far);
    } else {
      Move(m, root, c, far, n, b, near);
    }
  }

  lemma {:induction false} ParentPointers(m: Cells, root: Node?, c: Ctx<Node>, t: Shape<Node>)
    requires At(m, root, c, t)
    ensures t.Bin? ==> t.node in m && m[t.node].parent == ParentOf(c)
    ensures !c.Top? ==> c.node in m && m[c.node].black == c.black && m[c.node].parent == ParentOf(c.up)
  {}

  /** The pointers at a red node `p` in the context of a red node's hole. */
  lemma {:induction false} GrandPointers(m: Cells, root: Node?, c: Ctx<Node>, t: Shape<Node>)
    requires At(m, root, c, t) && t.Bin? && !c.Top? && !c.up.Top?
    ensures {t.node, c.node, c.up.node} <= m.Keys && m[c.node].parent == c.up.node
    ensures m[c.node].black == c.black && m[c.up.node].parent == ParentOf(c.up.up)
    ensures c.up.InL? <==> m[c.up.node].right != c.node
    ensures RootOf(c.up.sib) == (if c.up.InL? then m[c.up.node].right else m[c.up.node].left)
    ensures c.InL? <==> m[c.node].right != t.node
    ensures c.InL? <==> m[c.node].left == t.node
    ensures RootOf(c.sib) == (if c.InL? then m[c.node].right else m[c.node].left)
    ensures c.up.sib.Bin? ==> c.up.sib.node in m && m[c.up.sib.node].black == c.up.sib.black
  {
    var p := c.node;
    assert CtxLinked(m, root, c.up, p) && CtxDistinct(c.up) && Linked(m, c.up.sib, c.up.node);
    assert c.up.sib.Bin? ==> c.up.sib.node in Nodes(c.up.sib);
  }

  lemma {:induction false} UpperAt(m: Cells, root: Node?, c: Ctx<Node>, t: Shape<Node>)
    requires At(m, root, c, t) && !c.Top? && !c.up.Top?
    ensures At(m, root, c.up.up, Upper(c, t))
  {
    var p := Fork(c.InL?, t, c.node, c.black, c.sib);
    MoveSide(m, root, c.InL?, c.up, t, c.node, c.black, c.sib);
    MoveSide(m, root, c.up.InL?, c.up.up, p, c.up.node, c.up.black, c.up.sib);
  }

  /** The pointers at the parent and the sibling of the subtree in the hole. */
  lemma {:induction false} SiblingPointers(m: Cells, root: Node?, left: bool, up: Ctx<Node>, t: Shape<Node>, p: Node,
                                           pb: bool, near: Shape<Node>, x: Node, xb: bool, far: Shape<Node>)
    requires At(m, root, up, Fork(left, t, p, pb, Fork(left, near, x, xb, far)))
    ensures {p, x} <= m.Keys && m[p] == SideCell(left, RootOf(t), x, ParentOf(up), pb) && RootOf(t) != x
    ensures m[x] == SideCell(left, RootOf(near), RootOf(far), p, xb)
    ensures near.Bin? ==> near.node in m && m[near.node].black == near.black
    ensures far.Bin? ==> far.node in m && m[far.node].black == far.black
  {
    ForkParts(left, near, x, xb, far);
    ForkParts(left, t, p, pb, Fork(left, near, x, xb, far));
    ForkLinked(m, left, t, p, pb, Fork(left, near, x, xb, far), ParentOf(up));
    ForkLinked(m, left, near, x, xb, far, p);
  }

  // ---- Frames ----

  ghost predicate Same(m: Cells, m': Cells, s: set<Node>) {
    forall n | n in s :: n in m && n in m' && m'[n] == m[n]
  }

  lemma {:induction false} FrameTree(m: Cells, m': Cells, t: Shape<Node>, p: Node?)
    requires Linked(m, t, p) && Same(m, m', Nodes(t))
    ensures Linked(m', t, p)
  {
    match t
    case Leaf =>
    case Bin(l, n, b, r) =>
      FrameTree(m, m', l, n);
      FrameTree(m, m', r, n);
  }

  lemma {:induction false} FrameCtx(m: Cells, m': Cells, root: Node?, c: Ctx<Node>, x: Node?)
    requires CtxLinked(m, root, c, x) && Same(m, m', CtxNodes(c))
    ensures CtxLinked(m', root, c, x)
  {
    match c
    case Top =>
    case InL(up, n, b, r) => FrameCtx(m, m', root, up, n); FrameTree(m, m', r, n);
    case InR(up, l, n, b) => FrameCtx(m, m', root, up, n); FrameTree(m, m', l, n);
  }

  lemma {:induction false} LinkedDomain(m: Cells, t: Shape<Node>, p: Node?)
    requires Linked(m, t, p)
    ensures Nodes(t) <= m.Keys
  {
    if t.Bin? {
      LinkedDomain(m, t.left, t.node);
      LinkedDomain(m, t.right, t.node);
    }
  }

  lemma {:induction false} CtxDomain(m: Cells, root: Node?, c: Ctx<Node>, x: Node?)
    requires CtxLinked(m, root, c, x)
    ensures CtxNodes(c) <= m.Keys
  {
    if !c.Top? {
      LinkedDomain(m, c.sib, c.node);
      CtxDomain(m, root, c.up, c.node);
    }
  }

  // ---- Replacing the subtree in a hole ----

  /** Outside `s` the cells are unchanged. */
  ghost predicate Except(m: Cells, m': Cells, s: set<Node?>) {
    forall n | n in m && n !in s :: n in m' && m'[n] == m[n]
  }

  /** The link of `p` (or the root pointer) that held `x` holds `y` and `p` is otherwise unchanged. */
  ghost predicate Relinked(m: Cells, m': Cells, root: Node?, root': Node?, p: Node?, x: Node?, y: Node?) {
    if p == null then root' == y
    else && root' == root && p in m && p in m'
         && m'[p] == if m[p].left == x then m[p].(left := y) else m[p].(right := y)
  }

  lemma {:induction false} RelinkedCtx(m: Cells, m': Cells, root: Node?, root': Node?, c: Ctx<Node>, x: Node, y: Node?)
    requires CtxLinked(m, root, c, x) && CtxDistinct(c) && x !in CtxNodes(c)
    requires Relinked(m, m', root, root', ParentOf(c), x, y) && Same(m, m', CtxNodes(c) - {ParentOf(c)})
    ensures CtxLinked(m', root', c, y)
  {
    if !c.Top? {
      FrameCtx(m, m', root, c.up, c.node);
      FrameTree(m, m', c.sib, c.node);
    }
  }

  /** Once the cells of the subtree spell out `t'` and its parent's link leads to it, the tree is
      `t'` in the old context. */
  lemma {:induction false} Refocus(m: Cells, m': Cells, root: Node?, root': Node?, c: Ctx<Node>, t: Shape<Node>,
                                   t': Shape<Node>)
    requires At(m, root, c, t) && t.Bin?
    requires Linked(m', t', ParentOf(c)) && Distinct(t') && Nodes(t') <= Nodes(t)
    requires Relinked(m, m', root, root', ParentOf(c), t.node, RootOf(t'))
    requires Except(m, m', Nodes(t) + {ParentOf(c)})
    ensures At(m', root', c, t')
  {
    CtxDomain(m, root, c, t.node);
    RelinkedCtx(m, m', root, root', c, t.node, RootOf(t'));
  }

  /** A subtree with unchanged cells but for the parent link of its root hangs below `p'`. */
  lemma {:induction false} Rehung(m: Cells, m': Cells, t: Shape<Node>, p: Node?, p': Node?)
    requires Linked(m, t, p) && Distinct(t) && Same(m, m', Nodes(t) - {RootOf(t)})
    requires t.Bin? ==> t.node in m' && m'[t.node] == m[t.node].(parent := p')
    ensures Linked(m', t, p')
  {
    if t.Bin? {
      FrameTree(m, m', t.left, t.node);
      FrameTree(m, m', t.right, t.node);
    }
  }

  lemma {:induction false} ForkLinked(m: Cells, left: bool, a: Shape<Node>, x: Node, black: bool, b: Shape<Node>,
                                      p: Node?)
    ensures Linked(m, Fork(left, a, x, black, b), p) <==>
            && x in m && m[x] == SideCell(left, RootOf(a), RootOf(b), p, black)
            && Linked(m, a, x) && Linked(m, b, x)
  {}

  lemma {:induction false} PaintAt(m: Cells, m': Cells, root: Node?, c: Ctx<Node>, l: Shape<Node>, n: Node, b: bool,
                                   b': bool, r: Shape<Node>)
    requires At(m, root, c, Bin(l, n, b, r)) && n in m' && m'[n] == m[n].(black := b') && Except(m, m', {n})
    ensures At(m', root, c, Bin(l, n, b', r))
  {
    CtxDomain(m, root, c, n);
    LinkedDomain(m, l, n);
    LinkedDomain(m, r, n);
    FrameCtx(m, m', root, c, n);
    FrameTree(m, m', l, n);
    FrameTree(m, m', r, n);
  }

  lemma {:induction false} LeafAt(m: Cells, m': Cells, root: Node?, root': Node?, c: Ctx<Node>, n: Node)
    requires At(m, root, c, Leaf) && n !in m && n in m' && m'[n] == Cell(null, null, ParentOf(c), false)
    requires Except(m, m', {ParentOf(c)})
    requires if c.Top? then root' == n else
               && root' == root && c.node in m && c.node in m'
               && m'[c.node] == if c.InL? then m[c.node].(left := n) else m[c.node].(right := n)
    ensures At(m', root', c, Bin(Leaf, n, false, Leaf))
  {
    CtxDomain(m, root, c, null);
    if !c.Top? {
      FrameCtx(m, m', root, c.up, c.node);
      FrameTree(m, m', c.sib, c.node);
    }
  }

  /** Taking out a node with an empty subtree: its other subtree takes over its place and its colour. */
  lemma {:induction false} LiftAt(left: bool, m: Cells, m': Cells, root: Node?, root': Node?, c: Ctx<Node>, n: Node,
                                  black: bool, t: Shape<Node>)
    requires At(m, root, c, Fork(left, Leaf, n, black, t))
    requires Relinked(m, m', root, root', ParentOf(c), n, RootOf(t)) && Except(m, m', {n, RootOf(t), ParentOf(c)})
    requires t.Bin? ==> t.node in m && t.node in m' && m'[t.node] == m[t.node].(parent := ParentOf(c), black := black)
    ensures At(m', root', c, Lifted(t, black))
  {
    var u := Fork(left, Leaf, n, black, t);
    ForkParts(left, Leaf, n, black, t);
    ForkLinked(m, left, Leaf, n, black, t, ParentOf(c));
    LinkedDomain(m, u, ParentOf(c));
    if t.Bin? {
      FrameTree(m, m', t.left, t.node);
      FrameTree(m, m', t.right, t.node);
    }
    Refocus(m, m', root, root', c, u, Lifted(t, black));
  }

  lemma {:induction false} LiftPointers(left: bool, m: Cells, root: Node?, c: Ctx<Node>, n: Node, black: bool,
                                        t: Shape<Node>)
    requires At(m, root, c, Fork(left, Leaf, n, black, t))
    ensures n in m && m[n] == SideCell(left, null, RootOf(t), ParentOf(c), black)
    ensures t.Bin? ==> t.node in m && t.node != n
    ensures !c.Top? ==> c.node in m && c.node != n && c.node != RootOf(t)
  {
    ForkParts(left, Leaf, n, black, t);
    ForkLinked(m, left, Leaf, n, black, t, ParentOf(c));
  }

  /** `s`, from outside, takes over the place of `n`: its cell, the links to it and its subtrees. */
  lemma {:induction false} RenameAt(m: Cells, m': Cells, root: Node?, root': Node?, c: Ctx<Node>, l: Shape<Node>,
                                    n: Node, black: bool, r: Shape<Node>, s: Node)
    requires At(m, root, c, Bin(l, n, black, r)) && s !in CtxNodes(c) && s !in Nodes(Bin(l, n, black, r))
    requires s in m' && m'[s] == m[n] && Relinked(m, m', root, root', ParentOf(c), n, s)
    requires l.Bin? ==> l.node in m && l.node in m' && m'[l.node] == m[l.node].(parent := s)
    requires r.Bin? ==> r.node in m && r.node in m' && m'[r.node] == m[r.node].(parent := s)
    requires Except(m, m', {n, s, RootOf(l), RootOf(r), ParentOf(c)})
    ensures At(m', root', c, Bin(l, s, black, r))
  {
    var t := Bin(l, n, black, r);
    LinkedDomain(m, t, ParentOf(c));
    CtxDomain(m, root, c, n);
    Rehung(m, m', l, n, s);
    Rehung(m, m', r, n, s);
    RelinkedCtx(m, m', root, root', c, n, s);
  }

  /** The cells after the successor `s`, whose left link is empty, is lifted out below `p`. */
  ghost function LiftedOut(m: Cells, p: Node, s: Node, t: Node?): Cells
    requires p in m && (t != null ==> t in m)
  {
    var m1 := m[p := if m[p].left == s then m[p].(left := t) else m[p].(right := t)];
    if t == null then m1 else m1[t := m1[t].(parent := p, black := true)]
  }

  /** What the code then does to put `s` in the place of `n`. */
  ghost predicate PutInPlace(m: Cells, m': Cells, root: Node?, root': Node?, n: Node, s: Node) {
    && n in m && s in m && s in m' && m'[s] == m[n]
    && (m[n].left != null ==> m[n].left in m && m[n].left in m' && m'[m[n].left] == m[m[n].left].(parent := s))
    && (m[n].right != null ==> m[n].right in m && m[n].right in m' && m'[m[n].right] == m[m[n].right].(parent := s))
    && Relinked(m, m', root, root', m[n].parent, n, s)
    && Except(m, m', {n, s, m[n].left, m[n].right, m[n].parent})
  }

  lemma {:induction false} LiftOutAt(m: Cells, root: Node?, c: Ctx<Node>, s: Node, sb: bool, t: Shape<Node>)
    requires At(m, root, c, Bin(Leaf, s, sb, t)) && (t.Bin? ==> sb) && !c.Top?
    ensures c.node in m && s in m && (t.Bin? ==> t.node in m)
    ensures At(LiftedOut(m, c.node, s, RootOf(t)), root, c, Lifted(t, sb))
    ensures s !in Nodes(Zip(c, Lifted(t, sb)))
  {
    LiftPointers(true, m, root, c, s, sb, t);
    LiftAt(true, m, LiftedOut(m, c.node, s, RootOf(t)), root, root, c, s, sb, t);
    ZipNodes(c, Lifted(t, sb));
    ForkParts(true, Leaf, s, sb, t);
  }

  lemma {:induction false} PutInPlaceAt(m: Cells, m': Cells, root: Node?, root': Node?, c: Ctx<Node>, l: Shape<Node>,
                                        n: Node, black: bool, r: Shape<Node>, s: Node)
    requires At(m, root, Top, Zip(c, Bin(l, n, black, r))) && s !in Nodes(Zip(c, Bin(l, n, black, r)))
    requires PutInPlace(m, m', root, root', n, s)
    ensures At(m', root', Top, Zip(c, Bin(l, s, black, r)))
  {
    ZipAt(m, root, c, Bin(l, n, black, r));
    ZipNodes(c, Bin(l, n, black, r));
    RenameAt(m, m', root, root', c, l, n, black, r, s);
    ZipAt(m', root', c, Bin(l, s, black, r));
  }

  lemma {:induction false} SpliceAt(m: Cells, m': Cells, root: Node?, root': Node?, c: Ctx<Node>, up: Ctx<Node>,
                                    l: Shape<Node>, n: Node, black: bool, s: Node, sb: bool, t: Shape<Node>)
    requires var cs := Onto(c, InR(up, l, n, black));
             && !cs.Top? && cs.node in m && (t.Bin? ==> sb && t.node in m) && At(m, root, cs, Bin(Leaf, s, sb, t))
             && PutInPlace(LiftedOut(m, cs.node, s, RootOf(t)), m', root, root', n, s)
    ensures At(m', root', Onto(c, InR(up, l, s, black)), Lifted(t, sb))
  {
    var cs, cs' := Onto(c, InR(up, l, n, black)), Onto(c, InR(up, l, s, black));
    var m1 := LiftedOut(m, cs.node, s, RootOf(t));
    LiftOutAt(m, root, cs, s, sb, t);
    ZipAt(m1, root, cs, Lifted(t, sb));
    ZipOnto(c, InR(up, l, n, black), Lifted(t, sb));
    PutInPlaceAt(m1, m', root, root', up, l, n, black, Zip(c, Lifted(t, sb)), s);
    ZipOnto(c, InR(up, l, s, black), Lifted(t, sb));
    ZipAt(m', root', cs', Lifted(t, sb));
  }

  // ---- Rotations ----

  ghost function Blacken(t: Shape<Node>): Shape<Node> {
    if t.Leaf? then t else t.(black := true)
  }

  /** What a single rotation, which lifts `x` over `y`, leaves in the cells: `x` has taken the place of
      `y`, the inner subtree (root `tmp`) has changed hands, and the root `out` of the outer subtree is
      black if it was to be blackened. */
  ghost predicate Rotated(left: bool, m: Cells, m': Cells, x: Node, y: Node, xb: bool, yb: bool, tmp: Node?,
                          out: Node?) {
    && {x, y} <= m.Keys && {x, y} <= m'.Keys
    && (tmp != null ==> tmp in m && tmp in m' && m'[tmp] == m[tmp].(parent := y))
    && (out != null ==> out in m && out in m' && m'[out] == m[out].(parent := x, black := true))
    && (if left then
          m'[y] == Cell(tmp, m[y].right, x, yb) && m'[x] == Cell(m[x].left, y, m[y].parent, xb)
        else
          m'[y] == Cell(m[y].left, tmp, x, yb) && m'[x] == Cell(y, m[x].right, m[y].parent, xb))
  }

  lemma {:induction false} RotatedOuter(m: Cells, m': Cells, a: Shape<Node>, x: Node, out: Node?)
    requires Linked(m, a, x) && Distinct(a) && Same(m, m', Nodes(a) - {out})
    requires out != null ==> out == RootOf(a) && out in m' && m'[out] == m[out].(parent := x, black := true)
    ensures Linked(m', if out == null then a else Blacken(a), x)
  {
    if out == null {
      FrameTree(m, m', a, x);
    } else {
      FrameTree(m, m', a.left, a.node);
      FrameTree(m, m', a.right, a.node);
    }
  }

  lemma {:induction false} RotatedLinked(left: bool, m: Cells, m': Cells, a: Shape<Node>, x: Node, xb: bool,
                                         xb': bool, b: Shape<Node>, y: Node, yb: bool, yb': bool, c: Shape<Node>,
                                         p: Node?, out: Node?)
    requires Apart(a, x, b, y, c) && Linked(m, Leaning(left, a, x, xb, b, y, yb, c), p)
    requires Rotated(left, m, m', x, y, xb', yb', RootOf(b), out) && (out != null ==> out == RootOf(a))
    requires Same(m, m', Nodes(a) - {out}) && Same(m, m', Nodes(b) - {RootOf(b)}) && Same(m, m', Nodes(c))
    ensures Linked(m', Righted(left, if out == null then a else Blacken(a), x, xb', b, y, yb', c), p)
  {
    ForkLinked(m, left, Fork(left, a, x, xb, b), y, yb, c, p);
    ForkLinked(m, left, a, x, xb, b, y);
    RotatedOuter(m, m', a, x, out);
    Rehung(m, m', b, x, y);
    FrameTree(m, m', c, y);
    var a' := if out == null then a else Blacken(a);
    ForkLinked(m', left, b, y, yb', c, x);
    ForkLinked(m', left, a', x, xb', Fork(left, b, y, yb', c), p);
  }

  lemma {:induction false} BlackenSame(t: Shape<Node>)
    ensures Nodes(Blacken(t)) == Nodes(t) && Inorder(Blacken(t)) == Inorder(t) &&
            (Distinct(Blacken(t)) <==> Distinct(t))
  {}

  lemma {:induction false} RotateSame(left: bool, m: Cells, m': Cells, up: Ctx<Node>, a: Shape<Node>, x: Node,
                                      xb: bool, b: Shape<Node>, y: Node, yb: bool, c: Shape<Node>, out: Node?)
    requires var t := Leaning(left, a, x, xb, b, y, yb, c);
             Distinct(t) && CtxNodes(up) !! Nodes(t) && Nodes(t) <= m.Keys
    requires Except(m, m', {x, y, RootOf(b), out, ParentOf(up)}) && (out != null ==> out == RootOf(a))
    ensures Apart(a, x, b, y, c)
    ensures Same(m, m', Nodes(a) - {out}) && Same(m, m', Nodes(b) - {RootOf(b)}) && Same(m, m', Nodes(c))
    ensures Except(m, m', Nodes(Leaning(left, a, x, xb, b, y, yb, c)) + {ParentOf(up)})
  {
    LeaningParts(left, a, x, xb, b, y, yb, c);
    OnceSame(m, m', Nodes(a), out, x, Nodes(b), RootOf(b), y, Nodes(c), ParentOf(up));
  }

  lemma {:induction false} OnceSame(m: Cells, m': Cells, a: set<Node>, ra: Node?, x: Node, b: set<Node>, rb: Node?,
                                    y: Node, c: set<Node>, up: Node?)
    requires Except(m, m', {x, y, rb, ra, up}) && a + b + c <= m.Keys
    requires x !in a + b + c && y !in a + b + c && up !in a + b + c
    requires (ra != null ==> ra in a) && (rb != null ==> rb in b)
    requires a !! b && a !! c && b !! c
    ensures Same(m, m', a - {ra}) && Same(m, m', b - {rb}) && Same(m, m', c)
    ensures Except(m, m', a + b + c + {x, y} + {up})
  {}

  lemma {:induction false} RotateAt(left: bool, m: Cells, m': Cells, root: Node?, root': Node?, up: Ctx<Node>,
                                    a: Shape<Node>, x: Node, xb: bool, xb': bool, b: Shape<Node>, y: Node, yb: bool,
                                    yb': bool, c: Shape<Node>, out: Node?)
    requires At(m, root, up, Leaning(left, a, x, xb, b, y, yb, c))
    requires Rotated(left, m, m', x, y, xb', yb', RootOf(b), out) && (out != null ==> out == RootOf(a))
    requires Relinked(m, m', root, root', ParentOf(up), y, x)
    requires Except(m, m', {x, y, RootOf(b), out, ParentOf(up)})
    ensures At(m', root', up, Righted(left, if out == null then a else Blacken(a), x, xb', b, y, yb', c))
  {
    var t, p := Leaning(left, a, x, xb, b, y, yb, c), ParentOf(up);
    var a' := if out == null then a else Blacken(a);
    LinkedDomain(m, t, p);
    RotateSame(left, m, m', up, a, x, xb, b, y, yb, c, out);
    RotatedLinked(left, m, m', a, x, xb, xb', b, y, yb, yb', c, p, out);
    BlackenSame(a);
    LeaningParts(left, a, x, xb, b, y, yb, c);
    RightedParts(left, a', x, xb', b, y, yb', c);
    Refocus(m, m', root, root', up, t, Righted(left, a', x, xb', b, y, yb', c));
  }

  /** What a double rotation, which lifts `x` over its parent `p` and its grandparent `y`, leaves in the
      cells; `tb` and `tc` are the roots of the two subtrees of `x`. */
  ghost predicate RotatedTwice(left: bool, m: Cells, m': Cells, p: Node, x: Node, y: Node, pb: bool, xb: bool,
                               yb: bool, tb: Node?, tc: Node?) {
    && {p, x, y} <= m.Keys && {p, x, y} <= m'.Keys
    && (tb != null ==> tb in m && tb in m' && m'[tb] == m[tb].(parent := p))
    && (tc != null ==> tc in m && tc in m' && m'[tc] == m[tc].(parent := y))
    && (if left then
          m'[p] == Cell(m[p].left, tb, x, pb) && m'[x] == Cell(p, y, m[y].parent, xb) &&
              m'[y] == Cell(tc, m[y].right, x, yb)
        else
          m'[p] == Cell(tb, m[p].right, x, pb) && m'[x] == Cell(y, p, m[y].parent, xb) &&
              m'[y] == Cell(m[y].left, tc, x, yb))
  }

  lemma {:induction false} BentLinked(left: bool, m: Cells, a: Shape<Node>, p: Node, pb: bool, b: Shape<Node>,
                                      x: Node, xb: bool, c: Shape<Node>, y: Node, yb: bool, d: Shape<Node>, q: Node?)
    requires Linked(m, Bent(left, a, p, pb, b, x, xb, c, y, yb, d), q)
    ensures {p, x, y} <= m.Keys && Linked(m, a, p) && Linked(m, b, x) && Linked(m, c, x) && Linked(m, d, y)
    ensures m[p] == SideCell(left, RootOf(a), x, y, pb)
    ensures m[y] == SideCell(left, p, RootOf(d), q, yb)
  {
    ForkLinked(m, left, Fork(left, a, p, pb, Fork(left, b, x, xb, c)), y, yb, d, q);
    ForkLinked(m, left, a, p, pb, Fork(left, b, x, xb, c), y);
    ForkLinked(m, left, b, x, xb, c, p);
  }

  lemma {:induction false} StraightenedLinked(left: bool, m: Cells, a: Shape<Node>, p: Node, pb: bool, b: Shape<Node>,
                                              x: Node, xb: bool, c: Shape<Node>, y: Node, yb: bool, d: Shape<Node>,
                                              q: Node?)
    requires {p, x, y} <= m.Keys && Linked(m, a, p) && Linked(m, b, p) && Linked(m, c, y) && Linked(m, d, y)
    requires m[p] == SideCell(left, RootOf(a), RootOf(b), x, pb)
    requires m[x] == SideCell(left, p, y, q, xb)
    requires m[y] == SideCell(left, RootOf(c), RootOf(d), x, yb)
    ensures Linked(m, Straightened(left, a, p, pb, b, x, xb, c, y, yb, d), q)
  {
    ForkLinked(m, left, a, p, pb, b, x);
    ForkLinked(m, left, c, y, yb, d, x);
    ForkLinked(m, left, Fork(left, a, p, pb, b), x, xb, Fork(left, c, y, yb, d), q);
  }

  lemma {:induction false} RotatedTwiceLinked(left: bool, m: Cells, m': Cells, a: Shape<Node>, p: Node, pb: bool,
                                              pb': bool, b: Shape<Node>, x: Node, xb: bool, xb': bool, c: Shape<Node>,
                                              y: Node, yb: bool, yb': bool, d: Shape<Node>, q: Node?)
    requires Distinct(b) && Distinct(c) && Linked(m, Bent(left, a, p, pb, b, x, xb, c, y, yb, d), q)
    requires RotatedTwice(left, m, m', p, x, y, pb', xb', yb', RootOf(b), RootOf(c))
    requires Same(m, m', Nodes(a)) && Same(m, m', Nodes(b) - {RootOf(b)})
    requires Same(m, m', Nodes(c) - {RootOf(c)}) && Same(m, m', Nodes(d))
    ensures Linked(m', Straightened(left, a, p, pb', b, x, xb', c, y, yb', d), q)
  {
    BentLinked(left, m, a, p, pb, b, x, xb, c, y, yb, d, q);
    FrameTree(m, m', a, p);
    Rehung(m, m', b, x, p);
    Rehung(m, m', c, x, y);
    FrameTree(m, m', d, y);
    StraightenedLinked(left, m', a, p, pb', b, x, xb', c, y, yb', d, q);
  }

  lemma {:induction false} RotateTwiceSame(left: bool, m: Cells, m': Cells, up: Ctx<Node>, a: Shape<Node>, p: Node,
                                           pb: bool, b: Shape<Node>, x: Node, xb: bool, c: Shape<Node>, y: Node,
                                           yb: bool, d: Shape<Node>)
    requires var t := Bent(left, a, p, pb, b, x, xb, c, y, yb, d);
             Distinct(t) && CtxNodes(up) !! Nodes(t) && Nodes(t) <= m.Keys
    requires Except(m, m', {p, x, y, RootOf(b), RootOf(c), ParentOf(up)})
    ensures Same(m, m', Nodes(a)) && Same(m, m', Nodes(b) - {RootOf(b)})
    ensures Same(m, m', Nodes(c) - {RootOf(c)}) && Same(m, m', Nodes(d))
  {
    BentParts(left, a, p, pb, b, x, xb, c, y, yb, d);
    TwiceSame(m, m', Nodes(a), p, Nodes(b), RootOf(b), x, Nodes(c), RootOf(c), y, Nodes(d), ParentOf(up));
  }

  lemma {:induction false} TwiceSame(m: Cells, m': Cells, a: set<Node>, p: Node, b: set<Node>, rb: Node?, x: Node,
                                     c: set<Node>, rc: Node?, y: Node, d: set<Node>, up: Node?)
    requires Except(m, m', {p, x, y, rb, rc, up}) && a + b + c + d <= m.Keys
    requires p !in a + b + c + d && x !in a + b + c + d && y !in a + b + c + d && up !in a + b + c + d
    requires (rb != null ==> rb in b) && (rc != null ==> rc in c)
    requires a !! b && a !! c && a !! d && b !! c && b !! d && c !! d
    ensures Same(m, m', a) && Same(m, m', b - {rb}) && Same(m, m', c - {rc}) && Same(m, m', d)
  {}

  lemma {:induction false} TwiceExcept(left: bool, m: Cells, m': Cells, up: Ctx<Node>, a: Shape<Node>, p: Node,
                                       pb: bool, b: Shape<Node>, x: Node, xb: bool, c: Shape<Node>, y: Node, yb: bool,
                                       d: Shape<Node>)
    requires Except(m, m', {p, x, y, RootOf(b), RootOf(c), ParentOf(up)})
    ensures Except(m, m', Nodes(Bent(left, a, p, pb, b, x, xb, c, y, yb, d)) + {ParentOf(up)})
  {
    BentParts(left, a, p, pb, b, x, xb, c, y, yb, d);
  }

  lemma {:induction false} RotateTwiceAt(left: bool, m: Cells, m': Cells, root: Node?, root': Node?, up: Ctx<Node>,
                                         a: Shape<Node>, p: Node, pb: bool, pb': bool, b: Shape<Node>, x: Node,
                                         xb: bool, xb': bool, c: Shape<Node>, y: Node, yb: bool, yb': bool,
                                         d: Shape<Node>)
    requires At(m, root, up, Bent(left, a, p, pb, b, x, xb, c, y, yb, d))
    requires RotatedTwice(left, m, m', p, x, y, pb', xb', yb', RootOf(b), RootOf(c))
    requires Relinked(m, m', root, root', ParentOf(up), y, x)
    requires Except(m, m', {p, x, y, RootOf(b), RootOf(c), ParentOf(up)})
    ensures At(m', root', up, Straightened(left, a, p, pb', b, x, xb', c, y, yb', d))
  {
    var t, t' := Bent(left, a, p, pb, b, x, xb, c, y, yb, d), Straightened(left, a, p, pb', b, x, xb', c, y, yb', d);
    LinkedDomain(m, t, ParentOf(up));
    RotateTwiceSame(left, m, m', up, a, p, pb, b, x, xb, c, y, yb, d);
    TwiceExcept(left, m, m', up, a, p, pb, b, x, xb, c, y, yb, d);
    BentParts(left, a, p, pb, b, x, xb, c, y, yb, d);
    StraightenedParts(left, a, p, pb', b, x, xb', c, y, yb', d);
    RotatedTwiceLinked(left, m, m', a, p, pb, pb', b, x, xb, xb', c, y, yb, yb', d, ParentOf(up));
    Refocus(m, m', root, root', up, t, t');
  }

  /** The pointers a rotation goes through are nodes of the tree and differ where the code needs it. */
  lemma {:induction false} RotatePointers(left: bool, m: Cells, root: Node?, up: Ctx<Node>, a: Shape<Node>, x: Node,
                                          xb: bool, b: Shape<Node>, y: Node, yb: bool, c: Shape<Node>)
    requires At(m, root, up, Leaning(left, a, x, xb, b, y, yb, c))
    ensures {x, y} <= m.Keys && x != y
    ensures m[x] == SideCell(left, RootOf(a), RootOf(b), y, xb) &&
            m[y] == SideCell(left, x, RootOf(c), ParentOf(up), yb)
    ensures b.Bin? ==> b.node in m && b.node != x && b.node != y
    ensures a.Bin? ==> a.node in m && a.node != x && a.node != y && a.node != RootOf(b)
    ensures !up.Top? ==> up.node in m && up.node != x && up.node != y && up.node != RootOf(b) && up.node != RootOf(a)
  {
    LeaningParts(left, a, x, xb, b, y, yb, c);
    ForkLinked(m, left, Fork(left, a, x, xb, b), y, yb, c, ParentOf(up));
    ForkLinked(m, left, a, x, xb, b, y);
    CtxDomain(m, root, up, y);
  }

  lemma {:induction false} RotateTwicePointers(left: bool, m: Cells, root: Node?, up: Ctx<Node>, a: Shape<Node>,
                                               p: Node, pb: bool, b: Shape<Node>, x: Node, xb: bool, c: Shape<Node>,
                                               y: Node, yb: bool, d: Shape<Node>)
    requires At(m, root, up, Bent(left, a, p, pb, b, x, xb, c, y, yb, d))
    ensures {p, x, y} <= m.Keys && p != x && p != y && x != y
    ensures m[x] == SideCell(left, RootOf(b), RootOf(c), p, xb) && m[y].parent == ParentOf(up)
    ensures b.Bin? ==> && b.node in m && b.node != p && b.node != x && b.node != y && b.node != RootOf(c)
                       && m[b.node].black == b.black
    ensures c.Bin? ==> c.node in m && c.node != p && c.node != x && c.node != y
    ensures !up.Top? ==> && up.node in m && up.node != p && up.node != x && up.node != y
                         && up.node != RootOf(b) && up.node != RootOf(c)
  {
    BentParts(left, a, p, pb, b, x, xb, c, y, yb, d);
    BentLinked(left, m, a, p, pb, b, x, xb, c, y, yb, d, ParentOf(up));
    ForkLinked(m, left, Fork(left, a, p, pb, Fork(left, b, x, xb, c)), y, yb, d, ParentOf(up));
    ForkLinked(m, left, a, p, pb, Fork(left, b, x, xb, c), y);
    ForkLinked(m, left, b, x, xb, c, p);
    CtxDomain(m, root, up, y);
  }

  class Tree {
    var root: Node?
    ghost var repr: set<Node>
    ghost var shape: Shape<Node>

    constructor ()
      ensures Valid() && shape == Leaf
    {
      root, repr, shape := null, {}, Leaf;
      assert Balanced<Node>(Leaf, 0);
    }

    ghost predicate Valid()
      reads this, repr
    {
      repr == Nodes(shape) && At(Snap(repr), root, Top, shape) && RedBlack(shape)
    }

    /** change_child: the link of `parent`, or the root pointer, that holds `old_` now holds `new_`. */
    method ChangeChild(old_: Node, new_: Node?, parent: Node?)
      modifies this`root
      modifies if parent == null then {} else {parent}
      ensures if parent == null then root == new_ else
                && root == old(root) && parent.parent == old(parent.parent) && parent.black == old(parent.black)
                && parent.left == (if old(parent.left) == old_ then new_ else old(parent.left))
                && parent.right == (if old(parent.left) == old_ then old(parent.right) else new_)
    {
      if parent != null {
        if parent.left == old_ {
          parent.left := new_;
        } else {
          parent.right := new_;
        }
      } else {
        root := new_;
      }
    }

    /** rotate_set_parents: `new_` takes over the parent and colour of `old_`, which gets `new_` as its
        parent and `black` as its colour. */
    method RotateSetParents(old_: Node, new_: Node, black: bool)
      requires old_ != new_ && old_.parent != old_ && old_.parent != new_
      modifies this`root, old_`parent, old_`black, new_`parent, new_`black
      modifies if old_.parent == null then {} else {old_.parent}
      ensures var p := old(old_.parent);
        && new_.parent == p && new_.black == old(old_.black) && old_.parent == new_ && old_.black == black
        && if p == null then root == new_ else
             && root == old(root) && p.parent == old(p.parent) && p.black == old(p.black)
             && p.left == (if old(p.left) == old_ then new_ else old(p.left))
             && p.right == (if old(p.left) == old_ then old(p.right) else new_)
    {
      var parent := old_.parent;
      new_.parent, new_.black := old_.parent, old_.black;
      old_.parent, old_.black := new_, black;
      ChangeChild(old_, new_, parent);
    }

    /** Lift `x`, the child of `y` on the side `left`, over `y`: the last steps of insertion case 3 and of
        erasure cases 1 and 4.  `tmp` is the inner subtree, `out` a node to be set black. */
    method RotateLinks(left: bool, x: Node, y: Node, yb: bool, tmp: Node?, out: Node?)
      requires x != y && tmp != x && tmp != y && out != x && out != y && (out != null ==> out != tmp)
      requires var p := y.parent; p != null ==> p != x && p != y && p != tmp && p != out
      modifies this`root, x, y
      modifies if tmp == null then {} else {tmp}
      modifies if out == null then {} else {out}
      modifies if y.parent == null then {} else {y.parent}
      ensures y.Child(left) == tmp && y.Child(!left) == old(y.Child(!left)) && y.parent == x && y.black == yb
      ensures x.Child(!left) == y && x.Child(left) == old(x.Child(left)) && x.parent == old(y.parent) &&
              x.black == old(y.black)
      ensures tmp != null ==>
              tmp.parent == y && tmp.left == old(tmp.left) && tmp.right == old(tmp.right) &&
              tmp.black == old(tmp.black)
      ensures out != null ==> out.parent == x && out.left == old(out.left) && out.right == old(out.right) && out.black
      ensures var p := old(y.parent);
        if p == null then root == x else
          && root == old(root) && p.parent == old(p.parent) && p.black == old(p.black)
          && p.left == (if old(p.left) == y then x else old(p.left))
          && p.right == (if old(p.left) == y then old(p.right) else x)
    {
      y.SetChild(left, tmp);
      x.SetChild(!left, y);
      if out != null {
        out.parent, out.black := x, true;
      }
      if tmp != null {
        tmp.parent := y;
      }
      RotateSetParents(y, x, yb);
    }

    method Rotate(left: bool, x: Node, y: Node, yb: bool, tmp: Node?, out: Node?)
      requires {x, y} <= repr && x != y && tmp == x.Child(!left) &&
               (tmp != null ==> tmp in repr && tmp != x && tmp != y)
      requires out != null ==> out in repr && out != x && out != y && out != tmp
      requires var p := y.parent; p != null ==> p in repr && p != x && p != y && p != tmp && p != out
      modifies this`root, repr
      ensures var m, m' := old(Snap(repr)), Snap(repr);
        && Rotated(left, m, m', x, y, m[y].black, yb, tmp, out)
        && Relinked(m, m', old(root), root, old(y.parent), y, x)
        && Except(m, m', {x, y, tmp, out, old(y.parent)})
    {
      RotateLinks(left, x, y, yb, tmp, out);
    }

    method RotateTree(left: bool, x: Node, y: Node, yb': bool, tmp: Node?, out: Node?, ghost up: Ctx<Node>,
                      ghost a: Shape<Node>, ghost xb: bool, ghost b: Shape<Node>, ghost yb: bool, ghost c: Shape<Node>)
      requires At(Snap(repr), root, up, Leaning(left, a, x, xb, b, y, yb, c))
      requires tmp == RootOf(b) && (out != null ==> out == RootOf(a))
      modifies this`root, repr
      ensures At(Snap(repr), root, up, Righted(left, if out == null then a else Blacken(a), x, yb, b, y, yb', c))
    {
      ghost var m, root0 := Snap(repr), root;
      RotatePointers(left, m, root, up, a, x, xb, b, y, yb, c);
      Rotate(left, x, y, yb', tmp, out);
      RotateAt(left, m, Snap(repr), root0, root, up, a, x, xb, yb, b, y, yb, yb', c, out);
    }

    /** Insertion case 2 and erasure case 3: `x`, a child of `p` on the inner side, is put above `p`;
        `tmp` changes hands. */
    method Straighten(left: bool, p: Node, x: Node, tmp: Node?, pb: bool)
      requires p != x && tmp == x.Child(left) && tmp != p && tmp != x
      modifies p, x
      modifies if tmp == null then {} else {tmp}
      ensures p.Child(!left) == tmp && p.Child(left) == old(p.Child(left)) && p.parent == x && p.black == pb
      ensures x.Child(left) == p && x.Child(!left) == old(x.Child(!left)) && x.parent == old(x.parent) &&
              x.black == old(x.black)
      ensures tmp != null ==> tmp.parent == p && tmp.black && tmp.left == old(tmp.left) && tmp.right == old(tmp.right)
    {
      p.SetChild(!left, tmp);
      x.SetChild(left, p);
      if tmp != null {
        tmp.parent, tmp.black := p, true;
      }
      p.parent, p.black := x, pb;
    }

    /** The same followed by the rotation that lifts `x` over `y` as well, field by field. */
    method RotateTwiceLinks(left: bool, p: Node, x: Node, y: Node, pb: bool, yb: bool, tb: Node?, tc: Node?)
      requires p != x && p != y && x != y && tb == x.Child(left) && tc == x.Child(!left)
      requires tb != p && tb != x && tb != y && (tb != null ==> tb != tc && tb.black) && tc != p && tc != x && tc != y
      requires var q := y.parent; q != null ==> q != p && q != x && q != y && q != tb && q != tc
      modifies this`root, p, x, y
      modifies if tb == null then {} else {tb}
      modifies if tc == null then {} else {tc}
      modifies if y.parent == null then {} else {y.parent}
      ensures p.Child(!left) == tb && p.Child(left) == old(p.Child(left)) && p.parent == x && p.black == pb
      ensures y.Child(left) == tc && y.Child(!left) == old(y.Child(!left)) && y.parent == x && y.black == yb
      ensures x.Child(left) == p && x.Child(!left) == y && x.parent == old(y.parent) && x.black == old(y.black)
      ensures tb != null ==>
              tb.parent == p && tb.left == old(tb.left) && tb.right == old(tb.right) && tb.black == old(tb.black)
      ensures tc != null ==>
              tc.parent == y && tc.left == old(tc.left) && tc.right == old(tc.right) && tc.black == old(tc.black)
      ensures var q := old(y.parent);
        if q == null then root == x else
          && root == old(root) && q.parent == old(q.parent) && q.black == old(q.black)
          && q.left == (if old(q.left) == y then x else old(q.left))
          && q.right == (if old(q.left) == y then old(q.right) else x)
    {
      Straighten(left, p, x, tb, pb);
      RotateLinks(left, x, y, yb, tc, null);
    }

    /** The double rotation on the cells of the tree. */
    method RotateTwice(left: bool, p: Node, x: Node, y: Node, pb: bool, yb: bool, tb: Node?, tc: Node?)
      requires {p, x, y} <= repr && p != x && p != y && x != y && tb == x.Child(left) && tc == x.Child(!left)
      requires tb != null ==> tb in repr && tb != p && tb != x && tb != y && tb != tc && tb.black
      requires tc != null ==> tc in repr && tc != p && tc != x && tc != y
      requires var q := y.parent; q != null ==> q in repr && q !in {p, x, y} && q != tb && q != tc
      modifies this`root, repr
      ensures var m, m' := old(Snap(repr)), Snap(repr);
        && RotatedTwice(left, m, m', p, x, y, pb, m[y].black, yb, tb, tc)
        && Relinked(m, m', old(root), root, old(y.parent), y, x)
        && Except(m, m', {p, x, y, tb, tc, old(y.parent)})
    {
      RotateTwiceLinks(left, p, x, y, pb, yb, tb, tc);
    }

    method RotateTwiceTree(left: bool, p: Node, x: Node, y: Node, pb': bool, yb': bool, ghost up: Ctx<Node>,
                           ghost a: Shape<Node>, ghost pb: bool, ghost b: Shape<Node>, ghost xb: bool,
                           ghost c: Shape<Node>, ghost yb: bool, ghost d: Shape<Node>)
      requires At(Snap(repr), root, up, Bent(left, a, p, pb, b, x, xb, c, y, yb, d)) && IsBlack(b)
      modifies this`root, repr
      ensures At(Snap(repr), root, up, Straightened(left, a, p, pb', b, x, yb, c, y, yb', d))
    {
      ghost var m, root0 := Snap(repr), root;
      RotateTwicePointers(left, m, root, up, a, p, pb, b, x, xb, c, y, yb, d);
      RotateTwice(left, p, x, y, pb', yb', x.Child(left), x.Child(!left));
      RotateTwiceAt(left, m, Snap(repr), root0, root, up, a, p, pb, pb', b, x, xb, yb, c, y, yb, yb', d);
    }

    /** set_parent_color with the parent the node already has. */
    method Paint(n: Node, parent: Node?, black: bool, ghost c: Ctx<Node>, ghost l: Shape<Node>, ghost b: bool,
                 ghost r: Shape<Node>)
      requires At(Snap(repr), root, c, Bin(l, n, b, r)) && parent == ParentOf(c)
      modifies repr
      ensures At(Snap(repr), root, c, Bin(l, n, black, r))
    {
      ghost var m := Snap(repr);
      n.parent, n.black := parent, black;
      PaintAt(m, Snap(repr), root, c, l, n, b, black, r);
    }

    /** node_link: hang a red leaf on the empty link in the hole of `c`. */
    method NodeLink(node: Node, parent: Node?, left: bool, ghost c: Ctx<Node>)
      requires At(Snap(repr), root, c, Leaf) && parent == ParentOf(c) && node !in repr
      requires parent != null ==> parent in repr && left == c.InL?
      modifies this`root, this`repr, repr, node
      ensures repr == old(repr) + {node}
      ensures At(Snap(repr), root, c, Bin(Leaf, node, false, Leaf))
    {
      ghost var m, root0 := Snap(repr), root;
      LinkNode(node, parent, left);
      LeafAt(m, Snap(repr), root0, root, c, node);
    }

    method LinkNode(node: Node, parent: Node?, left: bool)
      requires node !in repr && (parent != null ==> parent in repr)
      modifies this`root, this`repr, repr, node
      ensures repr == old(repr) + {node}
      ensures var m, m' := old(Snap(repr)), Snap(repr);
        && m'[node] == Cell(null, null, parent, false) && Except(m, m', {parent})
        && if parent == null then root == node
           else root == old(root) && m'[parent] == if left then m[parent].(left := node) else m[parent].(right := node)
    {
      node.parent, node.black, node.left, node.right := parent, false, null, null;
      if parent == null {
        root := node;
      } else {
        parent.SetChild(left, node);
      }
      repr := repr + {node};
    }

    /** Insertion case 1: the parent and the uncle turn black, the grandparent red. */
    method InsertFlip(left: bool, parent: Node, gparent: Node, tmp: Node, ghost up: Ctx<Node>, ghost p: Shape<Node>,
                      ghost u: Shape<Node>)
      requires p.Bin? && p.node == parent && u.Bin? && u.node == tmp
      requires At(Snap(repr), root, up, Fork(left, p, gparent, true, u)) && gparent.parent == ParentOf(up)
      modifies repr
      ensures At(Snap(repr), root, up, Fork(left, p.(black := true), gparent, false, u.(black := true)))
    {
      ghost var p', u' := p.(black := true), u.(black := true);
      MoveSide(Snap(repr), root, left, up, p, gparent, true, u);
      Paint(tmp, gparent, true, Hole(!left, up, gparent, true, p), u.left, u.black, u.right);
      MoveSide(Snap(repr), root, left, up, p, gparent, true, u');
      Paint(parent, gparent, true, Hole(left, up, gparent, true, u'), p.left, p.black, p.right);
      MoveSide(Snap(repr), root, left, up, p', gparent, true, u');
      ghost var t := Fork(left, p', gparent, true, u');
      Paint(gparent, gparent.parent, false, up, t.left, true, t.right);
    }

    /** The tree spelled out by the links is taken as the new value. */
    ghost method Settle(c: Ctx<Node>, t: Shape<Node>)
      requires At(Snap(repr), root, c, t) && repr == Nodes(Zip(c, t)) && RedBlack(Zip(c, t))
      modifies this`shape
      ensures Valid() && shape == Zip(c, t)
    {
      ZipAt(Snap(repr), root, c, t);
      shape := Zip(c, t);
    }

    /** Insertion cases 2 and 3 together, for an inner grandchild: two rotations settle the tree. */
    method InsertRotateTwice(left: bool, node: Node, parent: Node, gparent: Node, ghost up: Ctx<Node>,
                             ghost f: Shape<Node>, ghost c: Shape<Node>, ghost u: Shape<Node>, ghost h: nat)
      requires f.Bin? && f.node == node && !f.black && IsBlack(u) && Balanced(f, h)
      requires CtxBalanced(Hole(!left, Hole(left, up, gparent, true, u), parent, false, c), h)
      requires var t := Fork(left, Fork(left, c, parent, false, f), gparent, true, u);
               At(Snap(repr), root, up, t) && repr == Nodes(Zip(up, t))
      modifies this`root, this`shape, repr
      ensures Valid() && repr == old(repr)
      ensures Inorder(shape) == Inorder(Zip(up, Fork(left, Fork(left, c, parent, false, f), gparent, true, u)))
    {
      ghost var b, d := if left then f.left else f.right, if left then f.right else f.left;
      ghost var t' := Straightened(left, c, parent, false, b, node, true, d, gparent, false, u);
      RotateTwiceTree(left, parent, node, gparent, false, false, up, c, false, b, false, d, true, u);
      RotateTwiceFits(left, up, b, node, d, parent, c, gparent, u, h);
      BentInorder(left, c, parent, false, b, node, false, d, gparent, true, u, false, true, false);
      BentParts(left, c, parent, false, b, node, false, d, gparent, true, u);
      StraightenedParts(left, c, parent, false, b, node, true, d, gparent, false, u);
      Exchange(up, Bent(left, c, parent, false, b, node, false, d, gparent, true, u), t');
      Settle(up, t');
    }

    /** Insertion case 3, for an outer grandchild: one rotation settles the tree. */
    method InsertRotate(left: bool, parent: Node, gparent: Node, tmp: Node?, ghost up: Ctx<Node>,
                        ghost f: Shape<Node>, ghost c: Shape<Node>, ghost u: Shape<Node>, ghost h: nat)
      requires tmp == RootOf(c) && IsBlack(u) && Balanced(f, h)
      requires CtxBalanced(Hole(left, Hole(left, up, gparent, true, u), parent, false, c), h)
      requires var t := Fork(left, Fork(left, f, parent, false, c), gparent, true, u);
               At(Snap(repr), root, up, t) && repr == Nodes(Zip(up, t))
      modifies this`root, this`shape, repr
      ensures Valid() && repr == old(repr)
      ensures Inorder(shape) == Inorder(Zip(up, Fork(left, Fork(left, f, parent, false, c), gparent, true, u)))
    {
      ghost var t' := Righted(left, f, parent, true, c, gparent, false, u);
      RotateTree(left, parent, gparent, false, tmp, null, up, f, false, c, true, u);
      RotateFits(left, up, f, parent, c, gparent, u, h);
      RotationInorder(left, f, parent, false, c, gparent, true, u, true, false);
      LeaningParts(left, f, parent, false, c, gparent, true, u);
      RightedParts(left, f, parent, true, c, gparent, false, u);
      Exchange(up, Leaning(left, f, parent, false, c, gparent, true, u), t');
      Settle(up, t');
    }

    /** The tree is red-black but for the red node `f` in the hole of `c`, which may have a red parent. */
    ghost predicate RedAt(c: Ctx<Node>, f: Shape<Node>, h: nat)
      reads this, repr
    {
      && repr == Nodes(Zip(c, f)) && At(Snap(repr), root, c, f)
      && f.Bin? && !f.black && Balanced(f, h) && CtxBalanced(c, h)
    }

    /** Insertion case 1: the parent and the uncle are red. */
    method InsertFlipRound(left: bool, parent: Node, gparent: Node, tmp: Node, ghost c: Ctx<Node>,
                           ghost f: Shape<Node>, ghost h: nat)
      returns (ghost f': Shape<Node>)
      requires RedAt(c, f, h) && !c.Top? && !c.black && !c.up.Top? && c.node == parent && c.up.node == gparent
      requires left == c.up.InL? && c.up.sib.Bin? && c.up.sib.node == tmp && !c.up.sib.black
      modifies repr
      ensures RedAt(c.up.up, f', h + 1) && f'.node == gparent && Inorder(Zip(c.up.up, f')) == Inorder(Zip(c, f))
    {
      ghost var pt := Fork(c.InL?, f, parent, false, c.sib);
      GrandPointers(Snap(repr), root, c, f);
      UpperAt(Snap(repr), root, c, f);
      ZipUpper(c, f);
      InsertFlip(left, parent, gparent, tmp, c.up.up, pt, c.up.sib);
      FlipFits(c.InL?, left, c.up.up, f, parent, c.sib, gparent, c.up.sib, h);
      FlipSame(left, c.up.up, pt, gparent, c.up.sib);
      f' := Fork(left, pt.(black := true), gparent, false, c.up.sib.(black := true));
    }

    /** Insertion cases 2 and 3: the uncle is black. */
    method InsertTurn(left: bool, node: Node, parent: Node, gparent: Node, ghost c: Ctx<Node>, ghost f: Shape<Node>,
                      ghost h: nat)
      requires RedAt(c, f, h) && f.node == node && !c.Top? && !c.black && !c.up.Top? && c.node == parent &&
               c.up.node == gparent
      requires left == c.up.InL? && IsBlack(c.up.sib)
      modifies this`root, this`shape, repr
      ensures Valid() && repr == old(repr) && Inorder(shape) == Inorder(Zip(c, f))
    {
      GrandPointers(Snap(repr), root, c, f);
      UpperAt(Snap(repr), root, c, f);
      ZipUpper(c, f);
      if node == parent.Child(!left) {
        InsertRotateTwice(left, node, parent, gparent, c.up.up, f, c.sib, c.up.sib, h);
      } else {
        InsertRotate(left, parent, gparent, parent.Child(!left), c.up.up, f, c.sib, c.up.sib, h);
      }
    }

    /** One round of the loop of insert_color below a red parent: a colour flip moves the red node up two
        levels, anything else ends the loop. */
    method InsertStep(node: Node, parent: Node, gparent: Node, ghost c: Ctx<Node>, ghost f: Shape<Node>, ghost h: nat)
      returns (done: bool, ghost f': Shape<Node>)
      requires RedAt(c, f, h) && f.node == node && !c.Top? && !c.black && !c.up.Top? && c.node == parent &&
               c.up.node == gparent
      modifies this`root, this`shape, repr
      ensures repr == old(repr)
      ensures done ==> Valid() && Inorder(shape) == Inorder(Zip(c, f))
      ensures !done ==>
              RedAt(c.up.up, f', h + 1) && f'.node == gparent && Inorder(Zip(c.up.up, f')) == Inorder(Zip(c, f))
    {
      GrandPointers(Snap(repr), root, c, f);
      var left := parent != gparent.right;
      var tmp := gparent.Child(!left);
      done, f' := true, f;
      assert tmp == RootOf(c.up.sib);
      if tmp != null && !tmp.black {
        f' := InsertFlipRound(left, parent, gparent, tmp, c, f, h);
        done := false;
      } else {
        InsertTurn(left, node, parent, gparent, c, f, h);
      }
    }

    method InsertAtRoot(node: Node, ghost f: Shape<Node>, ghost h: nat)
      requires RedAt(Top, f, h) && f.node == node
      modifies this`shape, repr
      ensures Valid() && repr == old(repr) && Inorder(shape) == Inorder(f)
    {
      Paint(node, null, true, Top, f.left, false, f.right);
      ZipRedBlack(Top, f.(black := true), h + 1);
      Settle(Top, f.(black := true));
    }

    ghost method InsertBelowBlack(c: Ctx<Node>, f: Shape<Node>, h: nat)
      requires RedAt(c, f, h) && TakesRed(c)
      modifies this`shape
      ensures Valid() && Inorder(shape) == Inorder(Zip(c, f))
    {
      ZipRedBlack(c, f, h);
      Settle(c, f);
    }

    /** The loop of insert_color goes on higher up, with the same nodes in order. */
    ghost predicate Onward(node: Node, c: Ctx<Node>, f: Shape<Node>, h: nat, s: seq<Node>)
      reads this, repr
    {
      RedAt(c, f, h) && f.node == node && Inorder(Zip(c, f)) == s
    }

    /** A round below a red parent. */
    method InsertRise(node: Node, parent: Node, ghost c: Ctx<Node>, ghost f: Shape<Node>, ghost h: nat,
                      ghost s: seq<Node>)
      returns (done: bool, node': Node, ghost c': Ctx<Node>, ghost f': Shape<Node>, ghost h': nat)
      requires Onward(node, c, f, h, s) && parent == ParentOf(c) && !parent.black
      modifies this`root, this`shape, repr
      ensures repr == old(repr) && Depth(c') < Depth(c)
      ensures done ==> Valid() && Inorder(shape) == s
      ensures !done ==> Onward(node', c', f', h', s)
    {
      ParentPointers(Snap(repr), root, c, f);
      node', c', h' := parent.parent, c.up.up, h + 1;
      DepthAbove(c);
      done, f' := InsertStep(node, parent, node', c, f, h);
    }

    /** One round of the loop of insert_color. */
    method InsertRound(node: Node, parent: Node?, ghost c: Ctx<Node>, ghost f: Shape<Node>, ghost h: nat,
                       ghost s: seq<Node>)
      returns (done: bool, node': Node, ghost c': Ctx<Node>, ghost f': Shape<Node>, ghost h': nat)
      requires Onward(node, c, f, h, s) && parent == ParentOf(c)
      modifies this`root, this`shape, repr
      ensures repr == old(repr)
      ensures done ==> Valid() && Inorder(shape) == s
      ensures !done ==> Onward(node', c', f', h', s) && Depth(c') < Depth(c)
    {
      done, node', c', f', h' := true, node, c, f, h;
      if parent == null {
        InsertAtRoot(node, f, h);
      } else {
        ParentPointers(Snap(repr), root, c, f);
        if parent.black {
          InsertBelowBlack(c, f, h);
        } else {
          done, node', c', f', h' := InsertRise(node, parent, c, f, h, s);
        }
      }
    }

    /** insert_color: restore the red-black properties after `node` was linked as a red leaf. */
    method InsertColor(node: Node, ghost c0: Ctx<Node>)
      requires RedAt(c0, Bin(Leaf, node, false, Leaf), 0)
      modifies this`root, this`shape, repr
      ensures Valid() && repr == old(repr)
      ensures Inorder(shape) == Before(c0) + [node] + After(c0)
    {
      ghost var c, f: Shape<Node>, h: nat := c0, Bin(Leaf, node, false, Leaf), 0;
      ghost var s := Inorder(Zip(c, f));
      ZipInorder(c, f);
      var node_, done := node, false;
      while !done
        invariant repr == old(repr)
        invariant done ==> Valid() && Inorder(shape) == s
        invariant !done ==> Onward(node_, c, f, h, s)
        decreases !done, Depth(c)
      {
        ParentPointers(Snap(repr), root, c, f);
        done, node_, c, f, h := InsertRound(node_, node_.parent, c, f, h, s);
      }
    }

    /** node_link on a red-black tree. */
    method LinkRed(node: Node, parent: Node?, left: bool, ghost c: Ctx<Node>)
      requires Valid() && shape == Zip(c, Leaf) && node !in repr
      requires parent == ParentOf(c) && (parent != null ==> left == c.InL?)
      modifies this`root, this`repr, repr, node
      ensures RedAt(c, Bin(Leaf, node, false, Leaf), 0) && repr == old(repr) + {node}
    {
      ghost var h := UnzipRedBlack(c, Leaf);
      ZipAt(Snap(repr), root, c, Leaf);
      ParentPointers(Snap(repr), root, c, Leaf);
      ZipNodes(c, Leaf);
      ZipNodes(c, Bin(Leaf, node, false, Leaf));
      NodeLink(node, parent, left, c);
    }

    /** node_link and insert_color: `node` joins the tree at an empty link and nothing else changes. */
    method Insert(node: Node, parent: Node?, left: bool, ghost c: Ctx<Node>)
      requires Valid() && shape == Zip(c, Leaf) && node !in repr
      requires parent == ParentOf(c) && (parent != null ==> left == c.InL?)
      modifies this, repr, node
      ensures Valid() && repr == old(repr) + {node}
      ensures IsInserted(c, node, old(Inorder(shape)), Inorder(shape))
    {
      ZipInorder(c, Leaf);
      LinkRed(node, parent, left, c);
      InsertColor(node, c);
    }

    // ---- Erasure ----

    /** The subtree `t` of the black node or empty link in the hole is one black node short. */
    ghost predicate LowAt(left: bool, up: Ctx<Node>, t: Shape<Node>, p: Node, pb: bool, sib: Shape<Node>, h: nat)
      reads this, repr
    {
      var s := Fork(left, t, p, pb, sib);
      && repr == Nodes(Zip(up, s)) && At(Snap(repr), root, up, s)
      && IsBlack(t) && Balanced(t, h) && CtxBalanced(Hole(left, up, p, pb, sib), h + 1)
    }

    /** Erasure case 1: a red sibling; rotate so that the sibling becomes a black one. */
    method EraseSiblingRed(left: bool, parent: Node, sibling: Node, tmp1: Node?, ghost up: Ctx<Node>,
                           ghost t: Shape<Node>, ghost pb: bool, ghost near: Shape<Node>, ghost far: Shape<Node>,
                           ghost h: nat)
      requires LowAt(left, up, t, parent, pb, Fork(left, near, sibling, false, far), h) && tmp1 == RootOf(near)
      modifies this`root, repr
      ensures repr == old(repr) && near.Bin? && near.black && pb
      ensures LowAt(left, Hole(left, up, sibling, true, far), t, parent, false, near, h)
      ensures Inorder(Zip(Hole(left, up, sibling, true, far), Fork(left, t, parent, false, near))) ==
              Inorder(Zip(up, Fork(left, t, parent, pb, Fork(left, near, sibling, false, far))))
    {
      RotateTree(!left, sibling, parent, false, tmp1, null, up, far, false, near, pb, t);
      SiblingRedFits(left, up, t, parent, pb, near, sibling, far, h);
      RotationInorder(!left, far, sibling, false, near, parent, pb, t, pb, false);
      LeaningParts(!left, far, sibling, false, near, parent, pb, t);
      RightedParts(!left, far, sibling, pb, near, parent, false, t);
      Exchange(up, Leaning(!left, far, sibling, false, near, parent, pb, t),
          Righted(!left, far, sibling, pb, near, parent, false, t));
      MoveSide(Snap(repr), root, left, up, Fork(left, t, parent, false, near), sibling, true, far);
    }

    /** Erasure case 4: a black sibling with a red outer child `tmp1`. */
    method EraseOuter(left: bool, parent: Node, sibling: Node, tmp1: Node, tmp2: Node?, ghost up: Ctx<Node>,
                      ghost t: Shape<Node>, ghost pb: bool, ghost near: Shape<Node>, ghost far: Shape<Node>,
                      ghost h: nat)
      requires LowAt(left, up, t, parent, pb, Fork(left, near, sibling, true, far), h)
      requires tmp1 == RootOf(far) && tmp2 == RootOf(near) && !far.black
      modifies this`root, this`shape, repr
      ensures Valid() && repr == old(repr)
      ensures Inorder(shape) == Inorder(Zip(up, Fork(left, t, parent, pb, Fork(left, near, sibling, true, far))))
    {
      ghost var far' := far.(black := true);
      RotateTree(!left, sibling, parent, true, tmp2, tmp1, up, far, true, near, pb, t);
      SiblingOuterFits(left, up, t, parent, pb, near, sibling, far, h);
      BlackenSame(far);
      RotationInorder(!left, far', sibling, true, near, parent, pb, t, pb, true);
      LeaningParts(!left, far, sibling, true, near, parent, pb, t);
      LeaningParts(!left, far', sibling, true, near, parent, pb, t);
      RightedParts(!left, far', sibling, pb, near, parent, true, t);
      ForkParts(!left, far, sibling, true, near);
      ForkParts(!left, far', sibling, true, near);
      ForkParts(!left, Fork(!left, far, sibling, true, near), parent, pb, t);
      ForkParts(!left, Fork(!left, far', sibling, true, near), parent, pb, t);
      Exchange(up, Leaning(!left, far, sibling, true, near, parent, pb, t),
          Righted(!left, far', sibling, pb, near, parent, true, t));
      Settle(up, Righted(!left, far', sibling, pb, near, parent, true, t));
    }

    /** Erasure cases 3 and 4 together: a black sibling with a red inner child `tmp2` and a black outer one. */
    method EraseInner(left: bool, parent: Node, sibling: Node, tmp2: Node, ghost up: Ctx<Node>, ghost t: Shape<Node>,
                      ghost pb: bool, ghost b: Shape<Node>, ghost c: Shape<Node>, ghost far: Shape<Node>, ghost h: nat)
      requires LowAt(left, up, t, parent, pb, Fork(left, Fork(!left, b, tmp2, false, c), sibling, true, far), h)
      requires IsBlack(far)
      modifies this`root, this`shape, repr
      ensures Valid() && repr == old(repr)
      ensures Inorder(shape) ==
              Inorder(Zip(up, Fork(left, t, parent, pb, Fork(left, Fork(!left, b, tmp2, false, c), sibling, true,
                  far))))
    {
      SiblingInnerFits(left, up, t, parent, pb, b, tmp2, c, sibling, far, h);
      RotateTwiceTree(!left, sibling, tmp2, parent, true, true, up, far, true, b, false, c, pb, t);
      BentInorder(!left, far, sibling, true, b, tmp2, false, c, parent, pb, t, true, pb, true);
      BentParts(!left, far, sibling, true, b, tmp2, false, c, parent, pb, t);
      StraightenedParts(!left, far, sibling, true, b, tmp2, pb, c, parent, true, t);
      Exchange(up, Bent(!left, far, sibling, true, b, tmp2, false, c, parent, pb, t),
               Straightened(!left, far, sibling, true, b, tmp2, pb, c, parent, true, t));
      Settle(up, Straightened(!left, far, sibling, true, b, tmp2, pb, c, parent, true, t));
    }

    /** Paint the sibling red. */
    method FlipSibling(left: bool, parent: Node, sibling: Node, ghost up: Ctx<Node>, ghost t: Shape<Node>,
                       ghost pb: bool, ghost near: Shape<Node>, ghost far: Shape<Node>)
      requires At(Snap(repr), root, up, Fork(left, t, parent, pb, Fork(left, near, sibling, true, far)))
      requires parent.black == pb && parent.parent == ParentOf(up)
      modifies repr
      ensures At(Snap(repr), root, up, Fork(left, t, parent, pb, Fork(left, near, sibling, false, far)))
      ensures parent.black == pb && parent.parent == ParentOf(up)
    {
      ghost var s0, s1 := Fork(left, near, sibling, true, far), Fork(left, near, sibling, false, far);
      MoveSide(Snap(repr), root, left, up, t, parent, pb, s0);
      Paint(sibling, parent, false, Hole(!left, up, parent, pb, t), s0.left, true, s0.right);
      MoveSide(Snap(repr), root, left, up, t, parent, pb, s1);
    }

    /** Erasure case 2: a black sibling with black children turns red; the shortage is made up by a red
        parent, ends at the root, or moves up to the parent. */
    method EraseFlip(left: bool, parent: Node, sibling: Node, ghost up: Ctx<Node>, ghost t: Shape<Node>,
                     ghost pb: bool, ghost near: Shape<Node>, ghost far: Shape<Node>, ghost h: nat)
      returns (done: bool, ghost t': Shape<Node>)
      requires LowAt(left, up, t, parent, pb, Fork(left, near, sibling, true, far), h)
      requires IsBlack(near) && IsBlack(far) && parent.black == pb && parent.parent == ParentOf(up)
      modifies this`shape, repr
      ensures repr == old(repr) && root == old(root)
      ensures done ==>
                && Valid()
                && Inorder(shape) == Inorder(Zip(up, Fork(left, t, parent, pb, Fork(left, near, sibling, true, far))))
      ensures !done ==>
                && pb && !up.Top? && t'.Bin? && t'.node == parent && parent.parent == up.node &&
                    LowAt(up.InL?, up.up, t', up.node, up.black, up.sib, h + 1)
                && Inorder(Zip(up, t')) == Inorder(Zip(up, Fork(left, t, parent, pb,
                    Fork(left, near, sibling, true, far))))
    {
      ghost var s0, s1 := Fork(left, near, sibling, true, far), Fork(left, near, sibling, false, far);
      t' := Fork(left, t, parent, true, s1);
      FlipSibling(left, parent, sibling, up, t, pb, near, far);
      SiblingFlipFits(left, up, t, parent, pb, near, sibling, far, h);
      FlipSiblingSame(left, up, t, parent, pb, near, sibling, far);
      if !parent.black {
        ghost var u := Fork(left, t, parent, false, s1);
        Paint(parent, parent.parent, true, up, u.left, false, u.right);
        Settle(up, t');
        done := true;
      } else if parent.parent == null {
        ZipRedBlack(Top, t', h + 1);
        Settle(up, t');
        done := true;
      } else {
        MoveSide(Snap(repr), root, up.InL?, up.up, t', up.node, up.black, up.sib);
        done := false;
      }
    }

    /** One round of the loop of erase_color with a black sibling: cases 2, 3 and 4. */
    method EraseStep(left: bool, parent: Node, sibling: Node, ghost up: Ctx<Node>, ghost t: Shape<Node>,
                     ghost pb: bool, ghost near: Shape<Node>, ghost far: Shape<Node>, ghost h: nat)
      returns (done: bool, ghost t': Shape<Node>)
      requires LowAt(left, up, t, parent, pb, Fork(left, near, sibling, true, far), h)
      modifies this`root, this`shape, repr
      ensures repr == old(repr)
      ensures done ==>
                && Valid()
                && Inorder(shape) == Inorder(Zip(up, Fork(left, t, parent, pb, Fork(left, near, sibling, true, far))))
      ensures !done ==>
                && pb && !up.Top? && t'.Bin? && t'.node == parent && parent.parent == up.node &&
                    LowAt(up.InL?, up.up, t', up.node, up.black, up.sib, h + 1)
                && Inorder(Zip(up, t')) == Inorder(Zip(up, Fork(left, t, parent, pb,
                    Fork(left, near, sibling, true, far))))
    {
      SiblingPointers(Snap(repr), root, left, up, t, parent, pb, near, sibling, true, far);
      var tmp1 := sibling.Child(!left);
      var tmp2 := sibling.Child(left);
      done, t' := true, t;
      if tmp1 == null || tmp1.black {
        if tmp2 == null || tmp2.black {
          done, t' := EraseFlip(left, parent, sibling, up, t, pb, near, far, h);
        } else {
          ghost var b, c := if left then near.right else near.left, if left then near.left else near.right;
          EraseInner(left, parent, sibling, tmp2, up, t, pb, b, c, far, h);
        }
      } else {
        EraseOuter(left, parent, sibling, tmp1, tmp2, up, t, pb, near, far, h);
      }
    }

    /** One round of the loop of erase_color. */
    method EraseRound(node: Node?, parent: Node, ghost side: bool, ghost up: Ctx<Node>, ghost t: Shape<Node>,
                      ghost pb: bool, ghost sib: Shape<Node>, ghost h: nat)
      returns (done: bool, ghost t': Shape<Node>)
      requires LowAt(side, up, t, parent, pb, sib, h) && node == RootOf(t) && sib.Bin?
      modifies this`root, this`shape, repr
      ensures repr == old(repr)
      ensures done ==> Valid() && Inorder(shape) == Inorder(Zip(up, Fork(side, t, parent, pb, sib)))
      ensures !done ==>
                && !up.Top? && t'.Bin? && t'.node == parent && parent.parent == up.node &&
                    LowAt(up.InL?, up.up, t', up.node, up.black, up.sib, h + 1)
                && Inorder(Zip(up, t')) == Inorder(Zip(up, Fork(side, t, parent, pb, sib)))
    {
      ghost var near, far := if side then sib.left else sib.right, if side then sib.right else sib.left;
      assert sib == Fork(side, near, sib.node, sib.black, far);
      SiblingPointers(Snap(repr), root, side, up, t, parent, pb, near, sib.node, sib.black, far);
      var left := node != parent.right;
      var sibling := parent.Child(!left);
      assert left == side && sibling == sib.node;
      if !sibling.black {
        var tmp1 := sibling.Child(left);
        EraseSiblingRed(left, parent, sibling, tmp1, up, t, pb, near, far, h);
        ghost var near', far' := if left then near.left else near.right, if left then near.right else near.left;
        done, t' := EraseStep(left, parent, tmp1, Hole(left, up, sibling, true, far), t, false, near', far', h);
      } else {
        done, t' := EraseStep(left, parent, sibling, up, t, pb, near, far, h);
      }
    }

    /** erase_color: restore the red-black properties after a black node was taken from the link of
        `parent0` that is now empty. */
    method EraseColor(parent0: Node, ghost left0: bool, ghost up0: Ctx<Node>, ghost pb0: bool, ghost sib0: Shape<Node>)
      requires LowAt(left0, up0, Leaf, parent0, pb0, sib0, 0)
      modifies this`root, this`shape, repr
      ensures Valid() && repr == old(repr)
      ensures Inorder(shape) == Inorder(Zip(up0, Fork(left0, Leaf, parent0, pb0, sib0)))
    {
      ghost var side, up, t: Shape<Node>, pb, sib, h: nat := left0, up0, Leaf, pb0, sib0, 0;
      ghost var all, s := Inorder(Zip(up0, Fork(left0, Leaf, parent0, pb0, sib0))), repr;
      var node: Node? := null;
      var parent: Node := parent0;
      while true
        invariant repr == s && LowAt(side, up, t, parent, pb, sib, h) && node == RootOf(t) && sib.Bin?
        invariant Inorder(Zip(up, Fork(side, t, parent, pb, sib))) == all
        decreases Depth(up)
      {
        var done;
        ghost var t';
        done, t' := EraseRound(node, parent, side, up, t, pb, sib, h);
        if done {
          break;
        }
        node := parent;
        parent := node.parent;
        side, up, t, pb, sib, h := up.InL?, up.up, t', up.black, up.sib, h + 1;
      }
    }

    /** Unlink a node that has at most the one child `child`: case 1 of erase. */
    method LiftChild(node: Node, child: Node?)
      requires node in repr && (child != null ==> child in repr && child != node)
      requires node.parent != null ==> node.parent in repr && node.parent != node && node.parent != child
      modifies this`root, this`repr, repr
      ensures repr == old(repr) - {node}
      ensures var m, m' := old(Snap(repr)), Snap(repr);
        && Relinked(m, m', old(root), root, m[node].parent, node, child) && Except(m, m', {node, child, m[node].parent})
        && (child != null ==> m'[child] == m[child].(parent := m[node].parent, black := m[node].black))
    {
      var parent := node.parent;
      ChangeChild(node, child, parent);
      if child != null {
        child.parent, child.black := node.parent, node.black;
      }
      repr := repr - {node};
    }

    method EraseOne(left: bool, node: Node, child: Node?, ghost c: Ctx<Node>, ghost black: bool, ghost t: Shape<Node>)
      returns (rebalance: Node?)
      requires Valid() && shape == Zip(c, Fork(left, Leaf, node, black, t)) && child == RootOf(t)
      modifies this, repr
      ensures repr == old(repr) - {node}
      ensures Unlinked(rebalance, c, Before(c) + Inorder(t) + After(c))
    {
      ghost var m, root0, u := Snap(repr), root, Fork(left, Leaf, node, black, t);
      ZipAt(m, root, c, u);
      LiftPointers(left, m, root, c, node, black, t);
      var parent, wasBlack := node.parent, node.black;
      LiftChild(node, child);
      LiftAt(left, m, Snap(repr), root0, root, c, node, black, t);
      LiftedNodes(left, c, node, black, t);
      LiftedFits(left, c, node, black, t);
      LiftedInorder(left, c, node, black, t);
      if child == null && wasBlack && parent != null {
        MoveSide(Snap(repr), root, c.InL?, c.up, Leaf, c.node, c.black, c.sib);
        rebalance := parent;
      } else {
        Settle(c, Lifted(t, black));
        rebalance := null;
      }
    }

    /** Put `successor`, found below `child` with the parent `parent` (itself when it is `child`), in the
        place of `node`: cases 2 and 3 of erase. */
    method SpliceLinks(node: Node, left: Node, child: Node, successor: Node, parent: Node, child2: Node?)
      requires node !in {left, successor, child, parent} && left !in {successor, child, parent} && node != child2
      requires child2 !in {left, child, successor, parent} && (successor == child <==> parent == successor)
      requires successor.right == child2 && node.parent !in {node, left, child, successor, parent}
      requires node.parent != null ==> node.parent != child2
      modifies this`root, left, child, successor, parent
      modifies if child2 == null then {} else {child2}
      modifies if node.parent == null then {} else {node.parent}
      ensures successor.left == left && successor.right == (if successor == child then child2 else child)
      ensures successor.parent == node.parent && successor.black == node.black
      ensures left.parent == successor && left.left == old(left.left) && left.right == old(left.right) &&
              left.black == old(left.black)
      ensures child2 != null ==>
              child2.parent == parent && child2.black && child2.left == old(child2.left) &&
              child2.right == old(child2.right)
      ensures successor != child ==>
              child.parent == successor && child.right == old(child.right) && child.black == old(child.black)
      ensures successor != child && parent != child ==>
              child.left == old(child.left) && parent.parent == old(parent.parent)
      ensures successor != child ==>
              parent.left == child2 && parent.right == old(parent.right) && parent.black == old(parent.black)
      ensures var p := node.parent;
        if p == null then root == successor else
          && root == old(root) && p.parent == old(p.parent) && p.black == old(p.black)
          && p.left == (if old(p.left) == node then successor else old(p.left))
          && p.right == (if old(p.left) == node then old(p.right) else successor)
    {
      if successor != child {
        parent.left := child2;
        successor.right := child;
        child.parent := successor;
      }
      successor.left := left;
      left.parent := successor;
      if child2 != null {
        child2.parent, child2.black := parent, true;
      }
      successor.parent, successor.black := node.parent, node.black;
      ChangeChild(node, successor, node.parent);
    }

    method Splice(node: Node, left: Node, child: Node, successor: Node, parent: Node, child2: Node?)
      requires {node, left, child, successor, parent} <= repr &&
               Splices(Snap(repr), node, left, child, successor, parent, child2)
      modifies this`root, this`repr, repr
      ensures repr == old(repr) - {node}
      ensures Spliced(old(Snap(repr)), Snap(repr), node, left, child, successor, parent, child2)
      ensures var m, m' := old(Snap(repr)), Snap(repr);
        && Relinked(m, m', old(root), root, m[node].parent, node, successor)
        && Except(m, m', {node, left, child, successor, parent, child2, m[node].parent})
    {
      SpliceLinks(node, left, child, successor, parent, child2);
      repr := repr - {node};
    }

    /** The leftmost node below `child`, with its parent. */
    method FindSuccessor(child: Node, ghost base: Ctx<Node>, ghost r: Shape<Node>)
      returns (parent: Node, successor: Node, ghost c: Ctx<Node>, ghost sb: bool, ghost t: Shape<Node>)
      requires At(Snap(repr), root, base, r) && r.Bin? && child == r.node
      ensures LeftSpine(c) && Zip(c, Bin(Leaf, successor, sb, t)) == r
      ensures At(Snap(repr), root, Onto(c, base), Bin(Leaf, successor, sb, t))
      ensures parent == if c.Top? then successor else c.node
    {
      ghost var u := r;
      ParentPointers(Snap(repr), root, base, r);
      c, parent, successor := Top, child, child;
      var tmp := successor.left;
      while tmp != null
        invariant LeftSpine(c) && Zip(c, u) == r && u.Bin? && u.node == successor && tmp == RootOf(u.left)
        invariant At(Snap(repr), root, Onto(c, base), u)
        invariant parent == if c.Top? then successor else c.node
        decreases u
      {
        Move(Snap(repr), root, Onto(c, base), u.left, u.node, u.black, u.right);
        c, u := InL(c, u.node, u.black, u.right), u.left;
        ParentPointers(Snap(repr), root, Onto(c, base), u);
        parent := successor;
        successor := tmp;
        tmp := tmp.left;
      }
      sb, t := u.black, u.right;
    }

    /** The splice on the tree: the successor `s` leaves the hole of `cr` and takes the place of `node`. */
    method SpliceTree(node: Node, left: Node, child: Node, s: Node, parent: Node, ghost cr: Ctx<Node>,
                      ghost up: Ctx<Node>, ghost l: Shape<Node>, ghost black: bool, ghost sb: bool,
                      ghost t: Shape<Node>)
      returns (child2: Node?, wasBlack: bool, ghost c: Ctx<Node>)
      requires At(Snap(repr), root, Onto(cr, InR(up, l, node, black)), Bin(Leaf, s, sb, t)) && LeftSpine(cr)
      requires repr == Nodes(Zip(Onto(cr, InR(up, l, node, black)), Bin(Leaf, s, sb, t))) && (t.Bin? ==> sb)
      requires l.Bin? && left == l.node && child == RootOf(Zip(cr, Bin(Leaf, s, sb, t)))
      requires parent == if cr.Top? then s else cr.node
      modifies this`root, this`repr, repr
      ensures repr == old(repr) - {node} && repr == Nodes(Zip(c, Lifted(t, sb)))
      ensures c == Onto(cr, InR(up, l, s, black)) && At(Snap(repr), root, c, Lifted(t, sb))
      ensures child2 == RootOf(t) && wasBlack == sb
    {
      ghost var m, root0 := Snap(repr), root;
      SplicePointers(m, root, cr, up, l, node, black, s, sb, t);
      child2, wasBlack := s.right, s.black;
      Splice(node, left, child, s, parent, child2);
      SplicedInPlace(m, Snap(repr), root0, root, node, left, child, s, parent, child2);
      c := Onto(cr, InR(up, l, s, black));
      SpliceAt(m, Snap(repr), root0, root, cr, up, l, node, black, s, sb, t);
      ZipAt(m, root0, Onto(cr, InR(up, l, node, black)), Bin(Leaf, s, sb, t));
      SplicedNodes(cr, up, l, node, black, s, sb, t);
    }

    /** Put the successor of `node`, found below its right child, in the place of `node`: cases 2 and 3 of erase. */
    method EraseTwo(node: Node, ghost up: Ctx<Node>, ghost l: Shape<Node>, ghost black: bool, ghost r: Shape<Node>)
      returns (rebalance: Node?, ghost c: Ctx<Node>)
      requires Valid() && shape == Zip(up, Bin(l, node, black, r)) && l.Bin? && r.Bin?
      modifies this, repr
      ensures repr == old(repr) - {node}
      ensures Unlinked(rebalance, c, Before(up) + Inorder(l) + Inorder(r) + After(up))
    {
      ghost var base := InR(up, l, node, black);
      ZipAt(Snap(repr), root, base, r);
      ParentPointers(Snap(repr), root, base, r);
      var left, child := node.left, node.right;
      var parent, successor;
      ghost var cr, sb, t;
      parent, successor, cr, sb, t := FindSuccessor(child, base, r);
      ZipOnto(cr, base, Bin(Leaf, successor, sb, t));
      SplicedFits(cr, up, l, node, black, successor, sb, t);
      SplicedInorder(cr, up, l, black, successor, sb, t);
      var child2, wasBlack;
      child2, wasBlack, c := SpliceTree(node, left, child, successor, parent, cr, up, l, black, sb, t);
      if child2 == null && wasBlack {
        MoveSide(Snap(repr), root, c.InL?, c.up, Leaf, c.node, c.black, c.sib);
        rebalance := parent;
      } else {
        Settle(c, Lifted(t, sb));
        rebalance := null;
      }
    }

    /** The tree holds `s` in order, or does so but for a black node missing at the hole of `c` below `rebalance`. */
    ghost predicate Unlinked(rebalance: Node?, c: Ctx<Node>, s: seq<Node>)
      reads this, repr
    {
      if rebalance == null then Valid() && Inorder(shape) == s
      else
        && !c.Top? && rebalance == c.node && c.sib.Bin? && LowAt(c.InL?, c.up, Leaf, c.node, c.black, c.sib, 0)
        && Inorder(Zip(c, Leaf)) == s
    }

    /** _erase: unlink `node`; `rebalance` is the parent of the place that is then one black node short. */
    method Unlink(node: Node, ghost up: Ctx<Node>, ghost l: Shape<Node>, ghost black: bool, ghost r: Shape<Node>)
      returns (rebalance: Node?, ghost c: Ctx<Node>)
      requires Valid() && shape == Zip(up, Bin(l, node, black, r))
      modifies this, repr
      ensures repr == old(repr) - {node}
      ensures Unlinked(rebalance, c, Before(up) + Inorder(l) + Inorder(r) + After(up))
    {
      ZipAt(Snap(repr), root, up, Bin(l, node, black, r));
      assert node.left == RootOf(l) && node.right == RootOf(r);
      c := up;
      assert Before(up) + [] + Inorder(r) + After(up) == Before(up) + Inorder(r) + After(up);
      assert Before(up) + Inorder(l) + [] + After(up) == Before(up) + Inorder(l) + After(up);
      if node.left == null {
        rebalance := EraseOne(true, node, node.right, up, black, r);
      } else if node.right == null {
        rebalance := EraseOne(false, node, node.left, up, black, l);
      } else {
        rebalance, c := EraseTwo(node, up, l, black, r);
      }
    }

    /** erase: take `node` out of the tree and nothing else. */
    method Erase(node: Node)
      requires Valid() && node in repr
      modifies this, repr
      ensures Valid() && repr == old(repr) - {node}
      ensures exists i: nat :: IsErasedAt(old(Inorder(shape)), Inorder(shape), node, i)
    {
      ghost var up, sub := Locate(shape, node);
      ghost var l, r := sub.left, sub.right;
      ZipInorder(up, sub);
      ErasedAt(Before(up), Inorder(l), node, Inorder(r), After(up));
      var rebalance;
      ghost var c;
      rebalance, c := Unlink(node, up, l, sub.black, r);
      if rebalance != null {
        EraseColor(rebalance, c.InL?, c.up, c.black, c.sib);
      }
      assert IsErasedAt(old(Inorder(shape)), Inorder(shape), node, |Before(up) + Inorder(l)|);
    }

    // ---- Walking in order ----

    /** The outermost node below `n` on one side, and the context in which it was found. */
    method Descend(n: Node, left: bool, ghost c0: Ctx<Node>, ghost t: Shape<Node>) returns (x: Node)
      requires At(Snap(repr), root, c0, t) && t.Bin? && n == t.node
      ensures x in repr && Inorder(t) != [] && x == if left then Inorder(t)[0] else Inorder(t)[|Inorder(t)| - 1]
    {
      ghost var c, u := c0, t;
      x := n;
      ParentPointers(Snap(repr), root, c, u);
      while x.Child(left) != null
        invariant At(Snap(repr), root, c, u) && u.Bin? && x == u.node && x in repr
        invariant |Inorder(u)| > 0
        invariant if left then Inorder(t)[0] == Inorder(u)[0] else
                  Inorder(t)[|Inorder(t)| - 1] == Inorder(u)[|Inorder(u)| - 1]
        decreases u
      {
        x := x.Child(left);
        Move(Snap(repr), root, c, u.left, u.node, u.black, u.right);
        if left {
          c, u := InL(c, u.node, u.black, u.right), u.left;
        } else {
          c, u := InR(c, u.left, u.node, u.black), u.right;
        }
        ParentPointers(Snap(repr), root, c, u);
      }
    }

    /** first (`left`) and last. */
    method Extreme(left: bool) returns (n: Node?)
      requires Valid()
      ensures n == null <==> repr == {}
      ensures n != null ==>
              n in repr && Inorder(shape) != [] &&
              n == if left then Inorder(shape)[0] else Inorder(shape)[|Inorder(shape)| - 1]
    {
      n := root;
      if n != null {
        n := Descend(n, left, Top, shape);
      }
    }

    /** The first ancestor of `node` that has it on the near side; `edge` is what lies beyond `node` on the far side. */
    method Ascend(node: Node, forward: bool, ghost c0: Ctx<Node>, ghost t0: Shape<Node>, ghost edge: seq<Node>)
      returns (n: Node?)
      requires At(Snap(repr), root, c0, t0) && t0.Bin? && node == t0.node && node.parent == ParentOf(c0)
      requires edge == if forward then After(c0) else Before(c0)
      ensures edge == [] <==> n == null
      ensures n != null ==> n == if forward then edge[0] else edge[|edge| - 1]
    {
      ghost var c, t := c0, t0;
      var x := node;
      ParentPointers(Snap(repr), root, c, t);
      n := x.parent;
      while n != null && x == n.Child(!forward)
        invariant At(Snap(repr), root, c, t) && t.Bin? && x == t.node && n == ParentOf(c) && (n != null ==> n in repr)
        invariant edge == if forward then After(c) else Before(c)
        decreases Depth(c)
      {
        SidePointers(Snap(repr), root, c, t);
        MoveSide(Snap(repr), root, c.InL?, c.up, t, c.node, c.black, c.sib);
        c, t := c.up, Fork(c.InL?, t, c.node, c.black, c.sib);
        x := n;
        ParentPointers(Snap(repr), root, c, t);
        n := x.parent;
      }
      if n != null {
        SidePointers(Snap(repr), root, c, t);
      }
    }

    /** node_next (`forward`) and node_prev: the neighbour of `node` in order, or null at the end. */
    method Step(node: Node, forward: bool, ghost i: nat) returns (n: Node?)
      requires Valid() && i < |Inorder(shape)| && Inorder(shape)[i] == node
      ensures forward ==> n == if i + 1 < |Inorder(shape)| then Inorder(shape)[i + 1] else null
      ensures !forward ==> n == if i > 0 then Inorder(shape)[i - 1] else null
    {
      ghost var c, t := LocateAt(shape, i);
      ZipAt(Snap(repr), root, c, t);
      ZipInorder(c, t);
      ParentPointers(Snap(repr), root, c, t);
      if node.Child(!forward) != null {
        ghost var c', t' := if forward then InR(c, t.left, t.node, t.black) else InL(c, t.node, t.black, t.right),
            if forward then t.right else t.left;
        Move(Snap(repr), root, c, t.left, t.node, t.black, t.right);
        n := Descend(node.Child(!forward), forward, c', t');
      } else {
        n := Ascend(node, forward, c, t, if forward then After(c) else Before(c));
      }
    }
  }

  lemma {:induction false} SidePointers(m: Cells, root: Node?, c: Ctx<Node>, t: Shape<Node>)
    requires At(m, root, c, t) && t.Bin? && !c.Top?
    ensures c.node in m && (c.InL? <==> m[c.node].left == t.node) && (c.InL? <==> m[c.node].right != t.node)
  {}

  /** `s'` is `s` with `n` added where the context `c` has its hole. */
  ghost predicate IsInserted(c: Ctx<Node>, n: Node, s: seq<Node>, s': seq<Node>) {
    s == Before(c) + After(c) && s' == Before(c) + [n] + After(c)
  }

  /** `s'` is `s` without the node `n`, which stood at `i`. */
  ghost predicate IsErasedAt(s: seq<Node>, s': seq<Node>, n: Node, i: nat) {
    i < |s| && s[i] == n && s' == s[..i] + s[i + 1..]
  }

  lemma {:induction false} ErasedAt(a: seq<Node>, b: seq<Node>, n: Node, c: seq<Node>, d: seq<Node>)
    ensures IsErasedAt(a + (b + [n] + c) + d, a + b + c + d, n, |a + b|)
  {
    var s := a + (b + [n] + c) + d;
    assert s[..|a + b|] == a + b;
    assert s[|a + b| + 1..] == c + d;
  }

  ghost predicate Splices(m: Cells, node: Node, left: Node, child: Node, successor: Node, parent: Node, child2: Node?) {
    && {node, left, child, successor, parent} <= m.Keys && m[node].left == left && m[node].right == child
    && node != left && node != successor && left != successor
    && child != node && child != left && parent != node && parent != left && m[successor].right == child2
    && (child2 != null ==> child2 in m && child2 !in {node, left, child, successor, parent})
    && (successor == child <==> parent == successor)
    && (parent != successor ==> m[parent].left == successor)
    && (m[node].parent != null ==> m[node].parent in m && m[node].parent !in {node, left, child, successor, parent,
        child2})
  }

  ghost predicate Spliced(m: Cells, m': Cells, node: Node, left: Node, child: Node, successor: Node, parent: Node,
                          child2: Node?)
    requires Splices(m, node, left, child, successor, parent, child2)
  {
    && {left, child, successor, parent} <= m'.Keys && (child2 != null ==> child2 in m')
    && m'[successor] == Cell(left, if successor == child then child2 else child, m[node].parent, m[node].black)
    && m'[left] == m[left].(parent := successor)
    && (child2 != null ==> m'[child2] == m[child2].(parent := parent, black := true))
    && (successor != child ==>
          if parent == child then m'[child] == m[child].(left := child2, parent := successor)
          else m'[child] == m[child].(parent := successor) && m'[parent] == m[parent].(left := child2))
  }

  lemma {:induction false} SplicePointers(m: Cells, root: Node?, c: Ctx<Node>, up: Ctx<Node>, l: Shape<Node>, n: Node,
                                          black: bool, s: Node, sb: bool, t: Shape<Node>)
    requires At(m, root, Onto(c, InR(up, l, n, black)), Bin(Leaf, s, sb, t)) && l.Bin? && LeftSpine(c)
    ensures Zip(c, Bin(Leaf, s, sb, t)).Bin?
    ensures Splices(m, n, l.node, Zip(c, Bin(Leaf, s, sb, t)).node, s, if c.Top? then s else c.node, RootOf(t))
    ensures m[s].black == sb && m[n].parent == ParentOf(up)
  {
    var cs, u, r := Onto(c, InR(up, l, n, black)), Bin(Leaf, s, sb, t), Zip(c, Bin(Leaf, s, sb, t));
    ZipRoot(c, u);
    OntoParts(c, InR(up, l, n, black));
    LinkedDomain(m, u, ParentOf(cs));
    CtxDomain(m, root, cs, s);
    ZipAt(m, root, cs, u);
    ZipOnto(c, InR(up, l, n, black), u);
    ZipAt(m, root, up, Bin(l, n, black, r));
    assert CtxNodes(InR(up, l, n, black)) == CtxNodes(up) + {n} + Nodes(l);
    SpliceParent(m, root, c, InR(up, l, n, black), s);
  }

  lemma {:induction false} SpliceParent(m: Cells, root: Node?, c: Ctx<Node>, base: Ctx<Node>, s: Node)
    requires CtxLinked(m, root, Onto(c, base), s) && LeftSpine(c)
    ensures !c.Top? ==> c.node in m && m[c.node].left == s
  {}

  lemma {:induction false} SplicedInPlace(m: Cells, m': Cells, root: Node?, root': Node?, node: Node, left: Node,
                                          child: Node, successor: Node, parent: Node, child2: Node?)
    requires Splices(m, node, left, child, successor, parent, child2)
    requires Spliced(m, m', node, left, child, successor, parent, child2)
    requires Relinked(m, m', root, root', m[node].parent, node, successor)
    requires Except(m, m', {node, left, child, successor, parent, child2, m[node].parent})
    ensures PutInPlace(LiftedOut(m, if parent == successor then node else parent, successor, child2), m', root, root',
            node, successor)
  {}
}
