/** The value-level view of a red-black tree: what the linked nodes of `Tree` spell out.
    A `Shape` is a subtree; a `Ctx` is the rest of the tree around a subtree, read from the
    subtree upwards, so that the fix-up loops of the tree can be followed one level at a time. */
module RbShape {

  datatype Shape<N> = Leaf | Bin(left: Shape<N>, node: N, black: bool, right: Shape<N>)

  datatype Ctx<N> =
    | Top
    | InL(up: Ctx<N>, node: N, black: bool, sib: Shape<N>)   // the hole is the left child of node
    | InR(up: Ctx<N>, sib: Shape<N>, node: N, black: bool)   // the hole is the right child of node

  ghost function Nodes<N>(t: Shape<N>): set<N> {
    match t
    case Leaf => {}
    case Bin(l, n, _, r) => Nodes(l) + {n} + Nodes(r)
  }

  ghost function Inorder<N>(t: Shape<N>): seq<N> {
    match t
    case Leaf => []
    case Bin(l, n, _, r) => Inorder(l) + [n] + Inorder(r)
  }

  ghost predicate Distinct<N>(t: Shape<N>) {
    match t
    case Leaf => true
    case Bin(l, n, _, r) =>
      Distinct(l) && Distinct(r) && n !in Nodes(l) && n !in Nodes(r) && Nodes(l) !! Nodes(r)
  }

  predicate IsBlack<N>(t: Shape<N>) {
    t.Leaf? || t.black
  }

  /** Every path down from the root of `t` passes `h` black nodes and no red node has a red child. */
  ghost predicate Balanced<N>(t: Shape<N>, h: nat) {
    match t
    case Leaf => h == 0
    case Bin(l, _, b, r) =>
      if b then h > 0 && Balanced(l, h - 1) && Balanced(r, h - 1)
      else Balanced(l, h) && Balanced(r, h) && IsBlack(l) && IsBlack(r)
  }

  /** The red-black tree property of a whole tree. */
  ghost predicate RedBlack<N>(t: Shape<N>) {
    IsBlack(t) && exists h: nat :: Balanced(t, h)
  }

  ghost function Zip<N>(c: Ctx<N>, t: Shape<N>): Shape<N> {
    match c
    case Top => t
    case InL(up, n, b, r) => Zip(up, Bin(t, n, b, r))
    case InR(up, l, n, b) => Zip(up, Bin(l, n, b, t))
  }

  ghost function CtxNodes<N>(c: Ctx<N>): set<N> {
    match c
    case Top => {}
    case InL(up, n, _, r) => CtxNodes(up) + {n} + Nodes(r)
    case InR(up, l, n, _) => CtxNodes(up) + {n} + Nodes(l)
  }

  ghost predicate CtxDistinct<N>(c: Ctx<N>) {
    match c
    case Top => true
    case InL(up, n, _, r) =>
      CtxDistinct(up) && Distinct(r) && n !in Nodes(r) && n !in CtxNodes(up) && Nodes(r) !! CtxNodes(up)
    case InR(up, l, n, _) =>
      CtxDistinct(up) && Distinct(l) && n !in Nodes(l) && n !in CtxNodes(up) && Nodes(l) !! CtxNodes(up)
  }

  /** The nodes that come before, and after, the hole in an in-order walk. */
  ghost function Before<N>(c: Ctx<N>): seq<N> {
    match c
    case Top => []
    case InL(up, _, _, _) => Before(up)
    case InR(up, l, n, _) => Before(up) + Inorder(l) + [n]
  }

  ghost function After<N>(c: Ctx<N>): seq<N> {
    match c
    case Top => []
    case InL(up, n, _, r) => [n] + Inorder(r) + After(up)
    case InR(up, _, _, _) => After(up)
  }

  ghost function Depth<N>(c: Ctx<N>): nat {
    if c.Top? then 0 else 1 + Depth(c.up)
  }

  lemma {:induction false} DepthAbove<N>(c: Ctx<N>)
    requires !c.Top? && !c.up.Top?
    ensures Depth(c.up.up) < Depth(c)
  {
    assert Depth(c.up) == 1 + Depth(c.up.up);
  }

  /** A red node may stand in the hole only below a black node. */
  predicate TakesRed<N>(c: Ctx<N>) {
    !c.Top? && c.black
  }

  /** `c` becomes a red-black tree when its hole is filled with a subtree of black height `h`. */
  ghost predicate CtxBalanced<N>(c: Ctx<N>, h: nat) {
    match c
    case Top => true
    case InL(up, _, b, r) =>
      Balanced(r, h) && (b || (IsBlack(r) && TakesRed(up))) && CtxBalanced(up, if b then h + 1 else h)
    case InR(up, l, _, b) =>
      Balanced(l, h) && (b || (IsBlack(l) && TakesRed(up))) && CtxBalanced(up, if b then h + 1 else h)
  }

  // ---- Taking a tree apart at a subtree and putting it together again ----

  lemma {:induction false} ZipNodes<N>(c: Ctx<N>, t: Shape<N>)
    ensures Nodes(Zip(c, t)) == CtxNodes(c) + Nodes(t)
    decreases c
  {
    match c
    case Top =>
    case InL(up, n, b, r) => ZipNodes(up, Bin(t, n, b, r));
    case InR(up, l, n, b) => ZipNodes(up, Bin(l, n, b, t));
  }

  lemma {:induction false} ZipDistinct<N>(c: Ctx<N>, t: Shape<N>)
    ensures Distinct(Zip(c, t)) <==> CtxDistinct(c) && Distinct(t) && CtxNodes(c) !! Nodes(t)
    decreases c
  {
    match c
    case Top =>
    case InL(up, n, b, r) => ZipDistinct(up, Bin(t, n, b, r));
    case InR(up, l, n, b) => ZipDistinct(up, Bin(l, n, b, t));
  }

  lemma {:induction false} Around<N>(a: seq<N>, i: seq<N>, n: N, r: seq<N>, z: seq<N>)
    ensures a + (i + [n] + r) + z == a + i + ([n] + r + z)
    ensures a + (i + [n] + r) + z == (a + i + [n]) + r + z
  {}

  lemma {:induction false} ZipInorder<N>(c: Ctx<N>, t: Shape<N>)
    ensures Inorder(Zip(c, t)) == Before(c) + Inorder(t) + After(c)
    decreases c
  {
    match c
    case Top =>
    case InL(up, n, b, r) =>
      ZipInorder(up, Bin(t, n, b, r));
      Around(Before(up), Inorder(t), n, Inorder(r), After(up));
    case InR(up, l, n, b) =>
      ZipInorder(up, Bin(l, n, b, t));
      Around(Before(up), Inorder(l), n, Inorder(t), After(up));
  }

  /** Filling a balanced context with a subtree of the height it expects gives a red-black tree. */
  lemma {:induction false} ZipRedBlack<N>(c: Ctx<N>, t: Shape<N>, h: nat)
    requires CtxBalanced(c, h) && Balanced(t, h) && (IsBlack(t) || TakesRed(c))
    ensures RedBlack(Zip(c, t))
    decreases c
  {
    match c
    case Top =>
    case InL(up, n, b, r) => ZipRedBlack(up, Bin(t, n, b, r), if b then h + 1 else h);
    case InR(up, l, n, b) => ZipRedBlack(up, Bin(l, n, b, t), if b then h + 1 else h);
  }

  /** Conversely, wherever a red-black tree is taken apart, both parts are balanced for one height. */
  lemma {:induction false} UnzipRedBlack<N>(c: Ctx<N>, t: Shape<N>) returns (h: nat)
    requires RedBlack(Zip(c, t))
    ensures CtxBalanced(c, h) && Balanced(t, h) && (IsBlack(t) || TakesRed(c))
    decreases c
  {
    match c
    case Top =>
      h :| Balanced(t, h);
    case InL(up, n, b, r) =>
      var k := UnzipRedBlack(up, Bin(t, n, b, r));
      h := if b then k - 1 else k;
    case InR(up, l, n, b) =>
      var k := UnzipRedBlack(up, Bin(l, n, b, t));
      h := if b then k - 1 else k;
  }

  // ---- Both sides at once ----

  /** A node whose `near` subtree is on the left when `left`, and on the right otherwise. */
  ghost function Fork<N>(left: bool, near: Shape<N>, n: N, black: bool, far: Shape<N>): Shape<N> {
    if left then Bin(near, n, black, far) else Bin(far, n, black, near)
  }

  /** The context of the near subtree of such a node. */
  ghost function Hole<N>(left: bool, up: Ctx<N>, n: N, black: bool, far: Shape<N>): Ctx<N> {
    if left then InL(up, n, black, far) else InR(up, far, n, black)
  }

  /** A subtree together with its parent and grandparent. */
  ghost function Upper<N>(c: Ctx<N>, t: Shape<N>): Shape<N>
    requires !c.Top? && !c.up.Top?
  {
    Fork(c.up.InL?, Fork(c.InL?, t, c.node, c.black, c.sib), c.up.node, c.up.black, c.up.sib)
  }

  lemma {:induction false} ZipUpper<N>(c: Ctx<N>, t: Shape<N>)
    requires !c.Top? && !c.up.Top?
    ensures Zip(c, t) == Zip(c.up.up, Upper(c, t))
    ensures Upper(c, t) == Fork(c.up.InL?, Fork(!c.InL?, c.sib, c.node, c.black, t), c.up.node, c.up.black, c.up.sib)
    ensures c == Hole(c.InL?, Hole(c.up.InL?, c.up.up, c.up.node, c.up.black, c.up.sib), c.node, c.black, c.sib)
  {
    var p := Fork(c.InL?, t, c.node, c.black, c.sib);
    assert Zip(c, t) == Zip(c.up, p);
    assert Zip(c.up, p) == Zip(c.up.up, Upper(c, t));
  }

  ghost predicate Apart<N>(a: Shape<N>, x: N, b: Shape<N>, y: N, c: Shape<N>) {
    && Distinct(a) && Distinct(b) && Distinct(c) && x != y
    && x !in Nodes(a) && x !in Nodes(b) && x !in Nodes(c)
    && y !in Nodes(a) && y !in Nodes(b) && y !in Nodes(c)
    && Nodes(a) !! Nodes(b) && Nodes(a) !! Nodes(c) && Nodes(b) !! Nodes(c)
  }

  lemma {:induction false} ForkParts<N>(left: bool, a: Shape<N>, x: N, black: bool, b: Shape<N>)
    ensures var t := Fork(left, a, x, black, b);
            && Nodes(t) == Nodes(a) + {x} + Nodes(b)
            && (Distinct(t) <==> Distinct(a) && Distinct(b) && x !in Nodes(a) && x !in Nodes(b) && Nodes(a) !! Nodes(b))
            && Inorder(t) == if left then Inorder(a) + [x] + Inorder(b) else Inorder(b) + [x] + Inorder(a)
  {}

  /** What a rotation turns into one another: a under x under y, and b under y under x. */
  ghost function Leaning<N>(left: bool, a: Shape<N>, x: N, xb: bool, b: Shape<N>, y: N, yb: bool, c: Shape<N>): Shape<N>
  {
    Fork(left, Fork(left, a, x, xb, b), y, yb, c)
  }

  ghost function Righted<N>(left: bool, a: Shape<N>, x: N, xb: bool, b: Shape<N>, y: N, yb: bool, c: Shape<N>): Shape<N>
  {
    Fork(left, a, x, xb, Fork(left, b, y, yb, c))
  }

  lemma {:induction false} LeaningParts<N>(left: bool, a: Shape<N>, x: N, xb: bool, b: Shape<N>, y: N, yb: bool,
                                           c: Shape<N>)
    ensures var t := Leaning(left, a, x, xb, b, y, yb, c);
            && (Distinct(t) <==> Apart(a, x, b, y, c))
            && Nodes(t) == Nodes(a) + Nodes(b) + Nodes(c) + {x, y}
  {
    ForkParts(left, a, x, xb, b);
    ForkParts(left, Fork(left, a, x, xb, b), y, yb, c);
  }

  lemma {:induction false} RightedParts<N>(left: bool, a: Shape<N>, x: N, xb: bool, b: Shape<N>, y: N, yb: bool,
                                           c: Shape<N>)
    ensures var t := Righted(left, a, x, xb, b, y, yb, c);
            && (Distinct(t) <==> Apart(a, x, b, y, c))
            && Nodes(t) == Nodes(a) + Nodes(b) + Nodes(c) + {x, y}
  {
    ForkParts(left, b, y, yb, c);
    ForkParts(left, a, x, xb, Fork(left, b, y, yb, c));
  }

  /** Rotating and recolouring keep the in-order sequence. */
  lemma {:induction false} RotationInorder<N>(left: bool, a: Shape<N>, x: N, xb: bool, b: Shape<N>, y: N, yb: bool,
                                              c: Shape<N>, xb': bool, yb': bool)
    ensures Inorder(Leaning(left, a, x, xb, b, y, yb, c)) == Inorder(Righted(left, a, x, xb', b, y, yb', c))
  {
    InorderFork(left, a, x, xb, b);
    InorderFork(left, b, y, yb', c);
    InorderFork(left, Fork(left, a, x, xb, b), y, yb, c);
    InorderFork(left, a, x, xb', Fork(left, b, y, yb', c));
    if left {
      Regrouped(Inorder(a), [x], Inorder(b), [y], Inorder(c));
    } else {
      Regrouped(Inorder(c), [y], Inorder(b), [x], Inorder(a));
    }
  }

  lemma {:induction false} InorderFork<N>(left: bool, a: Shape<N>, x: N, black: bool, b: Shape<N>)
    ensures Inorder(Fork(left, a, x, black, b)) ==
            if left then Inorder(a) + [x] + Inorder(b) else Inorder(b) + [x] + Inorder(a)
  {}

  lemma {:induction false} Regrouped<N>(p: seq<N>, x: seq<N>, q: seq<N>, y: seq<N>, r: seq<N>)
    ensures (p + x + q) + y + r == p + x + (q + y + r)
  {}

  /** What a double rotation turns a doubly bent subtree into: `x` on top of `p` and `y`. */
  ghost function Bent<N>(left: bool, a: Shape<N>, p: N, pb: bool, b: Shape<N>, x: N, xb: bool, c: Shape<N>, y: N,
                         yb: bool, d: Shape<N>): Shape<N> {
    Fork(left, Fork(left, a, p, pb, Fork(left, b, x, xb, c)), y, yb, d)
  }

  ghost function Straightened<N>(left: bool, a: Shape<N>, p: N, pb: bool, b: Shape<N>, x: N, xb: bool, c: Shape<N>,
                                 y: N, yb: bool, d: Shape<N>): Shape<N> {
    Fork(left, Fork(left, a, p, pb, b), x, xb, Fork(left, c, y, yb, d))
  }

  lemma {:induction false} BentInorder<N>(left: bool, a: Shape<N>, p: N, pb: bool, b: Shape<N>, x: N, xb: bool,
                                          c: Shape<N>, y: N, yb: bool, d: Shape<N>, pb': bool, xb': bool, yb': bool)
    ensures Inorder(Bent(left, a, p, pb, b, x, xb, c, y, yb, d)) ==
            Inorder(Straightened(left, a, p, pb', b, x, xb', c, y, yb', d))
  {
    RotationInorder(left, a, p, pb', b, x, xb, c, pb, xb);
    ForkParts(left, Righted(left, a, p, pb, b, x, xb, c), y, yb, d);
    ForkParts(left, Leaning(left, a, p, pb', b, x, xb, c), y, yb, d);
    RotationInorder(left, Fork(left, a, p, pb', b), x, xb, c, y, yb, d, xb', yb');
  }

  /** Four subtrees and three nodes that share nothing. */
  ghost predicate AllApart<N>(a: Shape<N>, p: N, b: Shape<N>, x: N, c: Shape<N>, y: N, d: Shape<N>) {
    && Apart(a, p, b, x, c) && Apart(c, x, b, y, d) && Apart(a, p, d, y, b)
    && Nodes(a) !! Nodes(d) && y !in Nodes(a) && p != y && x !in Nodes(d) && p !in Nodes(d)
  }

  lemma {:induction false} BentParts<N>(left: bool, a: Shape<N>, p: N, pb: bool, b: Shape<N>, x: N, xb: bool,
                                        c: Shape<N>, y: N, yb: bool, d: Shape<N>)
    ensures var t := Bent(left, a, p, pb, b, x, xb, c, y, yb, d);
            && (Distinct(t) <==> AllApart(a, p, b, x, c, y, d))
            && Nodes(t) == Nodes(a) + Nodes(b) + Nodes(c) + Nodes(d) + {p, x, y}
  {
    var r := Righted(left, a, p, pb, b, x, xb, c);
    RightedParts(left, a, p, pb, b, x, xb, c);
    ForkParts(left, r, y, yb, d);
    ApartUnion(a, p, b, x, c, y, d, Nodes(r));
  }

  /** A fourth subtree that shares nothing with the other three. */
  lemma {:induction false} ApartUnion<N>(a: Shape<N>, p: N, b: Shape<N>, x: N, c: Shape<N>, y: N, d: Shape<N>,
                                         r: set<N>)
    requires r == Nodes(a) + Nodes(b) + Nodes(c) + {p, x}
    ensures Apart(a, p, b, x, c) && Distinct(d) && y !in r && y !in Nodes(d) && r !! Nodes(d) <==>
            AllApart(a, p, b, x, c, y, d)
    ensures r + {y} + Nodes(d) == Nodes(a) + Nodes(b) + Nodes(c) + Nodes(d) + {p, x, y}
  {}

  lemma {:induction false} StraightenedParts<N>(left: bool, a: Shape<N>, p: N, pb: bool, b: Shape<N>, x: N, xb: bool,
                                                c: Shape<N>, y: N, yb: bool, d: Shape<N>)
    ensures var t := Straightened(left, a, p, pb, b, x, xb, c, y, yb, d);
            && (Distinct(t) <==> AllApart(a, p, b, x, c, y, d))
            && Nodes(t) == Nodes(a) + Nodes(b) + Nodes(c) + Nodes(d) + {p, x, y}
  {
    ForkParts(left, c, y, yb, d);
    LeaningParts(left, a, p, pb, b, x, xb, Fork(left, c, y, yb, d));
  }

  /** Subtrees with the same in-order nodes can be exchanged anywhere. */
  lemma {:induction false} Exchange<N>(c: Ctx<N>, t: Shape<N>, t': Shape<N>)
    requires Inorder(t) == Inorder(t') && Nodes(t) == Nodes(t')
    ensures Inorder(Zip(c, t)) == Inorder(Zip(c, t')) && Nodes(Zip(c, t)) == Nodes(Zip(c, t'))
  {
    ZipInorder(c, t);
    ZipInorder(c, t');
    ZipNodes(c, t);
    ZipNodes(c, t');
  }

  // ---- Insertion: a red node `f` of black height `h` hangs below a red parent `p` ----

  lemma {:induction false} FlipFits<N>(side: bool, left: bool, up: Ctx<N>, f: Shape<N>, p: N, c: Shape<N>, g: N,
                                       u: Shape<N>, h: nat)
    requires CtxBalanced(Hole(side, Hole(left, up, g, true, u), p, false, c), h)
    requires Balanced(f, h) && !IsBlack(f) && !IsBlack(u)
    ensures Balanced(Fork(left, Fork(side, f, p, true, c), g, false, u.(black := true)), h + 1) &&
            CtxBalanced(up, h + 1)
  {}

  lemma {:induction false} FlipSame<N>(left: bool, up: Ctx<N>, p: Shape<N>, g: N, u: Shape<N>)
    requires p.Bin? && u.Bin?
    ensures var t, t' := Fork(left, p, g, true, u), Fork(left, p.(black := true), g, false, u.(black := true));
            Inorder(Zip(up, t)) == Inorder(Zip(up, t')) && Nodes(Zip(up, t)) == Nodes(Zip(up, t'))
  {
    var p', u' := p.(black := true), u.(black := true);
    assert Inorder(p') == Inorder(p) && Inorder(u') == Inorder(u);
    assert Nodes(p') == Nodes(p) && Nodes(u') == Nodes(u);
    Exchange(up, Fork(left, p, g, true, u), Fork(left, p', g, false, u'));
  }

  lemma {:induction false} RotateFits<N>(left: bool, up: Ctx<N>, f: Shape<N>, p: N, c: Shape<N>, g: N, u: Shape<N>,
                                         h: nat)
    requires CtxBalanced(Hole(left, Hole(left, up, g, true, u), p, false, c), h) && Balanced(f, h) && IsBlack(u)
    ensures RedBlack(Zip(up, Righted(left, f, p, true, c, g, false, u)))
  {
    ZipRedBlack(up, Righted(left, f, p, true, c, g, false, u), h + 1);
  }

  lemma {:induction false} RotateTwiceFits<N>(left: bool, up: Ctx<N>, b: Shape<N>, x: N, d: Shape<N>, p: N,
                                              c: Shape<N>, g: N, u: Shape<N>, h: nat)
    requires CtxBalanced(Hole(!left, Hole(left, up, g, true, u), p, false, c), h)
    requires Balanced(Fork(left, b, x, false, d), h) && IsBlack(u)
    ensures RedBlack(Zip(up, Straightened(left, c, p, false, b, x, true, d, g, false, u)))
  {
    ZipRedBlack(up, Straightened(left, c, p, false, b, x, true, d, g, false, u), h + 1);
  }

  lemma {:induction false} ForkBalanced<N>(left: bool, a: Shape<N>, x: N, b: Shape<N>, h: nat)
    ensures Balanced(Fork(left, a, x, true, b), h + 1) <==> Balanced(a, h) && Balanced(b, h)
    ensures Balanced(Fork(left, a, x, false, b), h) <==> Balanced(a, h) && Balanced(b, h) && IsBlack(a) && IsBlack(b)
  {}

  // ---- Erasure: `t` is black and of black height `h`, one less than its context expects ----

  /** Case 1: a red sibling; after the rotation the sibling is black and the parent red. */
  lemma {:induction false} SiblingRedFits<N>(left: bool, up: Ctx<N>, t: Shape<N>, p: N, pb: bool, near: Shape<N>,
                                             x: N, far: Shape<N>, h: nat)
    requires CtxBalanced(Hole(left, up, p, pb, Fork(left, near, x, false, far)), h + 1) && Balanced(t, h)
    ensures pb && CtxBalanced(Hole(left, Hole(left, up, x, true, far), p, false, near), h + 1)
    ensures near.Bin? && near.black
  {}

  /** Case 2: a black sibling with black children turns red. */
  lemma {:induction false} SiblingFlipFits<N>(left: bool, up: Ctx<N>, t: Shape<N>, p: N, pb: bool, near: Shape<N>,
                                              x: N, far: Shape<N>, h: nat)
    requires CtxBalanced(Hole(left, up, p, pb, Fork(left, near, x, true, far)), h + 1) && Balanced(t, h) && IsBlack(t)
    requires IsBlack(near) && IsBlack(far)
    ensures Balanced(Fork(left, t, p, true, Fork(left, near, x, false, far)), h + 1)
    ensures CtxBalanced(up, if pb then h + 2 else h + 1)
    ensures !pb ==> RedBlack(Zip(up, Fork(left, t, p, true, Fork(left, near, x, false, far))))
  {
    if !pb {
      ZipRedBlack(up, Fork(left, t, p, true, Fork(left, near, x, false, far)), h + 1);
    }
  }

  lemma {:induction false} FlipSiblingSame<N>(left: bool, up: Ctx<N>, t: Shape<N>, p: N, pb: bool, near: Shape<N>,
                                              x: N, far: Shape<N>)
    ensures var s, s' := Fork(left, near, x, true, far), Fork(left, near, x, false, far);
            var u, u' := Fork(left, t, p, pb, s), Fork(left, t, p, true, s');
            Inorder(Zip(up, u)) == Inorder(Zip(up, u')) && Nodes(Zip(up, u)) == Nodes(Zip(up, u'))
  {
    var s, s' := Fork(left, near, x, true, far), Fork(left, near, x, false, far);
    ForkParts(left, near, x, true, far);
    ForkParts(left, near, x, false, far);
    ForkParts(left, t, p, pb, s);
    ForkParts(left, t, p, true, s');
    Exchange(up, Fork(left, t, p, pb, s), Fork(left, t, p, true, s'));
  }

  /** Case 4: a black sibling with a red outer child. */
  lemma {:induction false} SiblingOuterFits<N>(left: bool, up: Ctx<N>, t: Shape<N>, p: N, pb: bool, near: Shape<N>,
                                               x: N, far: Shape<N>, h: nat)
    requires CtxBalanced(Hole(left, up, p, pb, Fork(left, near, x, true, far)), h + 1) && Balanced(t, h) && IsBlack(t)
    requires !IsBlack(far)
    ensures RedBlack(Zip(up, Righted(!left, far.(black := true), x, pb, near, p, true, t)))
  {
    ForkBalanced(left, near, x, far, h);
    assert Balanced(far.(black := true), h + 1);
    ZipRedBlack(up, Righted(!left, far.(black := true), x, pb, near, p, true, t), if pb then h + 2 else h + 1);
  }

  /** Cases 3 and 4: a black sibling with a red inner child. */
  lemma {:induction false} SiblingInnerFits<N>(left: bool, up: Ctx<N>, t: Shape<N>, p: N, pb: bool, b: Shape<N>, n: N,
                                               c: Shape<N>, x: N, far: Shape<N>, h: nat)
    requires CtxBalanced(Hole(left, up, p, pb, Fork(left, Fork(!left, b, n, false, c), x, true, far)), h + 1)
    requires Balanced(t, h) && IsBlack(t) && IsBlack(far)
    ensures IsBlack(b)
    ensures RedBlack(Zip(up, Straightened(!left, far, x, true, b, n, pb, c, p, true, t)))
  {
    ForkBalanced(left, Fork(!left, b, n, false, c), x, far, h);
    ForkBalanced(!left, b, n, c, h);
    ZipRedBlack(up, Straightened(!left, far, x, true, b, n, pb, c, p, true, t), if pb then h + 2 else h + 1);
  }

  /** A node with an empty subtree: its other subtree, if any, is a single red node and takes its colour. */
  ghost function Lifted<N>(t: Shape<N>, black: bool): Shape<N> {
    if t.Leaf? then Leaf else t.(black := black)
  }

  lemma {:induction false} LiftedFits<N>(left: bool, c: Ctx<N>, n: N, black: bool, t: Shape<N>)
    requires RedBlack(Zip(c, Fork(left, Leaf, n, black, t)))
    ensures t.Bin? || !black || c.Top? ==> RedBlack(Zip(c, Lifted(t, black)))
    ensures t.Leaf? && black && !c.Top? ==> CtxBalanced(c, 1) && c.sib.Bin?
  {
    var h := UnzipRedBlack(c, Fork(left, Leaf, n, black, t));
    if t.Bin? || !black {
      ZipRedBlack(c, Lifted(t, black), h);
    } else if c.Top? {
      ZipRedBlack(c, Leaf, 0);
    }
  }

  lemma {:induction false} LiftedNodes<N>(left: bool, c: Ctx<N>, n: N, black: bool, t: Shape<N>)
    requires Distinct(Zip(c, Fork(left, Leaf, n, black, t)))
    ensures Distinct(Lifted(t, black)) && Nodes(Lifted(t, black)) == Nodes(t) && n !in Nodes(t) && n !in CtxNodes(c)
    ensures Nodes(Zip(c, Lifted(t, black))) == Nodes(Zip(c, Fork(left, Leaf, n, black, t))) - {n}
  {
    ZipDistinct(c, Fork(left, Leaf, n, black, t));
    ForkParts(left, Leaf, n, black, t);
    ZipNodes(c, Lifted(t, black));
    ZipNodes(c, Fork(left, Leaf, n, black, t));
  }

  lemma {:induction false} LiftedInorder<N>(left: bool, c: Ctx<N>, n: N, black: bool, t: Shape<N>)
    ensures Inorder(Zip(c, Lifted(t, black))) == Before(c) + Inorder(t) + After(c)
  {
    ZipInorder(c, Lifted(t, black));
  }

  // ---- Erasing a node with two subtrees: its successor, at the end of a left spine, takes its place ----

  /** The context `c`, whose top is the hole of `base`. */
  ghost function Onto<N>(c: Ctx<N>, base: Ctx<N>): Ctx<N> {
    match c
    case Top => base
    case InL(up, n, b, r) => InL(Onto(up, base), n, b, r)
    case InR(up, l, n, b) => InR(Onto(up, base), l, n, b)
  }

  predicate LeftSpine<N>(c: Ctx<N>) {
    c.Top? || (c.InL? && LeftSpine(c.up))
  }

  lemma {:induction false} ZipOnto<N>(c: Ctx<N>, base: Ctx<N>, t: Shape<N>)
    ensures Zip(Onto(c, base), t) == Zip(base, Zip(c, t))
    decreases c
  {
    match c
    case Top =>
    case InL(up, n, b, r) => ZipOnto(up, base, Bin(t, n, b, r));
    case InR(up, l, n, b) => ZipOnto(up, base, Bin(l, n, b, t));
  }

  lemma {:induction false} ZipRoot<N>(c: Ctx<N>, t: Shape<N>)
    requires t.Bin?
    ensures Zip(c, t).Bin? && Zip(c, t).node in (if c.Top? then {t.node} else CtxNodes(c))
    decreases c
  {
    match c
    case Top =>
    case InL(up, n, b, r) => ZipRoot(up, Bin(t, n, b, r));
    case InR(up, l, n, b) => ZipRoot(up, Bin(l, n, b, t));
  }

  lemma {:induction false} OntoParts<N>(c: Ctx<N>, base: Ctx<N>)
    ensures CtxNodes(Onto(c, base)) == CtxNodes(c) + CtxNodes(base)
    ensures CtxDistinct(Onto(c, base)) <==> CtxDistinct(c) && CtxDistinct(base) && CtxNodes(c) !! CtxNodes(base)
  {
    if !c.Top? {
      OntoParts(c.up, base);
    }
  }

  lemma {:induction false} InorderNodes<N>(t: Shape<N>)
    ensures (forall n | n in Inorder(t) :: n in Nodes(t)) && (forall n | n in Nodes(t) :: n in Inorder(t))
  {
    if t.Bin? {
      InorderNodes(t.left);
      InorderNodes(t.right);
    }
  }

  /** Every node of a tree is somewhere in it. */
  lemma {:induction false} Locate<N>(t: Shape<N>, n: N) returns (c: Ctx<N>, sub: Shape<N>)
    requires n in Nodes(t)
    ensures Zip(c, sub) == t && sub.Bin? && sub.node == n
  {
    if t.node == n {
      c, sub := Top, t;
    } else if n in Nodes(t.left) {
      c, sub := Locate(t.left, n);
      ZipOnto(c, InL(Top, t.node, t.black, t.right), sub);
      c := Onto(c, InL(Top, t.node, t.black, t.right));
    } else {
      c, sub := Locate(t.right, n);
      ZipOnto(c, InR(Top, t.left, t.node, t.black), sub);
      c := Onto(c, InR(Top, t.left, t.node, t.black));
    }
  }

  lemma {:induction false} LocateAt<N>(t: Shape<N>, i: nat) returns (c: Ctx<N>, sub: Shape<N>)
    requires i < |Inorder(t)|
    ensures Zip(c, sub) == t && sub.Bin? && sub.node == Inorder(t)[i] && i == |Before(c)| + |Inorder(sub.left)|
  {
    var k := |Inorder(t.left)|;
    if i == k {
      c, sub := Top, t;
    } else if i < k {
      c, sub := LocateAt(t.left, i);
      ZipOnto(c, InL(Top, t.node, t.black, t.right), sub);
      OntoBefore(c, InL(Top, t.node, t.black, t.right));
      c := Onto(c, InL(Top, t.node, t.black, t.right));
    } else {
      c, sub := LocateAt(t.right, i - k - 1);
      ZipOnto(c, InR(Top, t.left, t.node, t.black), sub);
      OntoBefore(c, InR(Top, t.left, t.node, t.black));
      c := Onto(c, InR(Top, t.left, t.node, t.black));
    }
  }

  lemma {:induction false} OntoBefore<N>(c: Ctx<N>, base: Ctx<N>)
    ensures |Before(Onto(c, base))| == |Before(base)| + |Before(c)|
  {
    if !c.Top? {
      OntoBefore(c.up, base);
    }
  }

  lemma {:induction false} SpineBefore<N>(c: Ctx<N>)
    requires LeftSpine(c)
    ensures Before(c) == []
  {
    if !c.Top? {
      SpineBefore(c.up);
    }
  }

  /** Balance does not depend on which node is where. */
  lemma {:induction false} RenamedBalanced<N>(c: Ctx<N>, up: Ctx<N>, l: Shape<N>, n: N, n': N, black: bool, h: nat)
    requires CtxBalanced(Onto(c, InR(up, l, n, black)), h)
    ensures CtxBalanced(Onto(c, InR(up, l, n', black)), h)
    ensures TakesRed(Onto(c, InR(up, l, n, black))) == TakesRed(Onto(c, InR(up, l, n', black)))
  {
    match c
    case Top =>
    case InL(u, _, b, _) => RenamedBalanced(u, up, l, n, n', black, if b then h + 1 else h);
    case InR(u, _, _, b) => RenamedBalanced(u, up, l, n, n', black, if b then h + 1 else h);
  }

  lemma {:induction false} SplicedFits<N>(c: Ctx<N>, up: Ctx<N>, l: Shape<N>, n: N, black: bool, s: N, sb: bool,
                                          t: Shape<N>)
    requires RedBlack(Zip(Onto(c, InR(up, l, n, black)), Bin(Leaf, s, sb, t)))
    ensures t.Bin? ==> sb
    ensures var c' := Onto(c, InR(up, l, s, black));
            && (t.Bin? || !sb ==> RedBlack(Zip(c', Lifted(t, sb))))
            && (t.Leaf? && sb && !c'.Top? ==> CtxBalanced(c', 1) && c'.sib.Bin?)
  {
    var c0, c' := Onto(c, InR(up, l, n, black)), Onto(c, InR(up, l, s, black));
    var h := UnzipRedBlack(c0, Bin(Leaf, s, sb, t));
    RenamedBalanced(c, up, l, n, s, black, h);
    ZipRedBlack(c', Bin(Leaf, n, sb, t), h);
    LiftedFits(true, c', n, sb, t);
  }

  lemma {:induction false} SplicedNodes<N>(c: Ctx<N>, up: Ctx<N>, l: Shape<N>, n: N, black: bool, s: N, sb: bool,
                                           t: Shape<N>)
    requires Distinct(Zip(Onto(c, InR(up, l, n, black)), Bin(Leaf, s, sb, t)))
    ensures Nodes(Zip(Onto(c, InR(up, l, s, black)), Lifted(t, sb))) ==
            Nodes(Zip(Onto(c, InR(up, l, n, black)), Bin(Leaf, s, sb, t))) - {n}
  {
    var c0, c1 := Onto(c, InR(up, l, n, black)), Onto(c, InR(up, l, s, black));
    ZipDistinct(c0, Bin(Leaf, s, sb, t));
    ZipNodes(c0, Bin(Leaf, s, sb, t));
    ZipNodes(c1, Lifted(t, sb));
    OntoParts(c, InR(up, l, n, black));
    OntoParts(c, InR(up, l, s, black));
  }

  lemma {:induction false} SpineInorder<N>(c: Ctx<N>, s: N, sb: bool, t: Shape<N>)
    requires LeftSpine(c)
    ensures Inorder(Zip(c, Bin(Leaf, s, sb, t))) == [s] + Inorder(Zip(c, Lifted(t, sb)))
  {
    ZipInorder(c, Bin(Leaf, s, sb, t));
    ZipInorder(c, Lifted(t, sb));
    SpineBefore(c);
    assert Inorder(Bin(Leaf, s, sb, t)) == [s] + Inorder(t);
  }

  lemma {:induction false} SplicedInorder<N>(c: Ctx<N>, up: Ctx<N>, l: Shape<N>, black: bool, s: N, sb: bool,
                                             t: Shape<N>)
    requires LeftSpine(c)
    ensures Inorder(Zip(Onto(c, InR(up, l, s, black)), Lifted(t, sb))) ==
            Before(up) + Inorder(l) + Inorder(Zip(c, Bin(Leaf, s, sb, t))) + After(up)
  {
    var r := Zip(c, Lifted(t, sb));
    ZipOnto(c, InR(up, l, s, black), Lifted(t, sb));
    ZipInorder(InR(up, l, s, black), r);
    SpineInorder(c, s, sb, t);
    Regroup(Before(up) + Inorder(l), s, Inorder(r), After(up));
  }

  lemma {:induction false} Regroup<N>(a: seq<N>, x: N, b: seq<N>, c: seq<N>)
    ensures a + [x] + b + c == a + ([x] + b) + c
  {}

  // ---- The height of a red-black tree ----

  ghost function Height<N>(t: Shape<N>): nat {
    match t
    case Leaf => 0
    case Bin(l, _, _, r) => 1 + if Height(l) < Height(r) then Height(r) else Height(l)
  }

  ghost function Pow2(n: nat): (p: nat)
    ensures p > 0
  {
    if n == 0 then 1 else 2 * Pow2(n - 1)
  }

  lemma {:induction false} BalancedBounds<N>(t: Shape<N>, h: nat)
    requires Balanced(t, h)
    ensures Height(t) <= 2 * h + (if IsBlack(t) then 0 else 1)
    ensures Pow2(h) <= |Inorder(t)| + 1
  {
    match t
    case Leaf =>
    case Bin(l, _, b, r) =>
      var k := if b then h - 1 else h;
      BalancedBounds(l, k);
      BalancedBounds(r, k);
  }

  lemma {:induction false} Quadruple(p: nat, q: nat)
    requires p <= q * q
    ensures 4 * p <= (2 * q) * (2 * q)
  {
    assert (2 * q) * (2 * q) == 4 * (q * q);
  }

  lemma {:induction false} Pow2Doubles(m: nat, n: nat)
    requires m <= 2 * n
    ensures Pow2(m) <= Pow2(n) * Pow2(n)
  {
    if m > 1 {
      Pow2Doubles(m - 2, n - 1);
      assert Pow2(m) == 4 * Pow2(m - 2) && Pow2(n) == 2 * Pow2(n - 1);
      Quadruple(Pow2(m - 2), Pow2(n - 1));
    } else if n > 0 {
      assert Pow2(m) <= 4 && Pow2(n) == 2 * Pow2(n - 1);
      SquareMono(1, Pow2(n - 1));
      Quadruple(1, Pow2(n - 1));
    }
  }

  lemma {:induction false} SquareMono(a: nat, b: nat)
    requires a <= b
    ensures a * a <= b * b
  {
    assert a * a <= a * b <= b * b;
  }

  /** A red-black tree of n nodes is at most 2*log2(n + 1) high. */
  lemma {:induction false} HeightBound<N>(t: Shape<N>)
    requires RedBlack(t)
    ensures Pow2(Height(t)) <= (|Inorder(t)| + 1) * (|Inorder(t)| + 1)
  {
    var h: nat :| Balanced(t, h);
    BalancedBounds(t, h);
    Pow2Doubles(Height(t), h);
    SquareMono(Pow2(h), |Inorder(t)| + 1);
  }
}
