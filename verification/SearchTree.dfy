/** The binary search that the authenticator and the mapped-DNS cache run over the red-black tree.
    Both go left when the stored key is the smaller one, so keys decrease from left to right. */
module SearchTree {
  import opened Ordering
  import opened RbShape
  import opened RbTree

  type Keys = map<Node, Key>

  ghost predicate Decreasing(ord: Order, keys: Keys, s: seq<Node>) {
    && (forall i | 0 <= i < |s| :: s[i] in keys)
    && (forall i, j | 0 <= i < j < |s| :: Less(ord, keys[s[j]], keys[s[i]]))
  }

  /** Every key of `s` is above, or below, `k`. */
  ghost predicate AllAbove(ord: Order, keys: Keys, s: seq<Node>, k: Key) {
    forall i | 0 <= i < |s| :: s[i] in keys && Less(ord, k, keys[s[i]])
  }

  ghost predicate AllBelow(ord: Order, keys: Keys, s: seq<Node>, k: Key) {
    forall i | 0 <= i < |s| :: s[i] in keys && Less(ord, keys[s[i]], k)
  }

  lemma {:induction false} SplitDecreasing(ord: Order, keys: Keys, a: seq<Node>, n: Node, b: seq<Node>)
    requires Decreasing(ord, keys, a + [n] + b)
    ensures Decreasing(ord, keys, a) && Decreasing(ord, keys, b) && n in keys
    ensures AllAbove(ord, keys, a, keys[n]) && AllBelow(ord, keys, b, keys[n])
  {
    var s := a + [n] + b;
    assert s[|a|] == n;
    assert forall i | 0 <= i < |a| :: s[i] == a[i];
    assert forall i | 0 <= i < |b| :: s[|a| + 1 + i] == b[i];
  }

  lemma {:induction false} AboveTrans(ord: Order, keys: Keys, s: seq<Node>, k: Key, k': Key)
    requires AllAbove(ord, keys, s, k) && (k == k' || Less(ord, k', k))
    ensures AllAbove(ord, keys, s, k')
  {
    forall i | 0 <= i < |s| ensures Less(ord, k', keys[s[i]]) {
      LessOrder(ord, k', k, keys[s[i]]);
    }
  }

  lemma {:induction false} BelowTrans(ord: Order, keys: Keys, s: seq<Node>, k: Key, k': Key)
    requires AllBelow(ord, keys, s, k) && (k == k' || Less(ord, k, k'))
    ensures AllBelow(ord, keys, s, k')
  {
    forall i | 0 <= i < |s| ensures Less(ord, keys[s[i]], k') {
      LessOrder(ord, keys[s[i]], k, k');
    }
  }

  /** A node whose key lies between the two halves can go between them. */
  lemma {:induction false} InsertDecreasing(ord: Order, keys: Keys, a: seq<Node>, n: Node, b: seq<Node>)
    requires Decreasing(ord, keys, a + b) && n in keys
    requires AllAbove(ord, keys, a, keys[n]) && AllBelow(ord, keys, b, keys[n])
    ensures Decreasing(ord, keys, a + [n] + b)
  {
    var s, t := a + [n] + b, a + b;
    forall i, j | 0 <= i < j < |s| ensures Less(ord, keys[s[j]], keys[s[i]]) {
      var i', j' := if i < |a| then i else i - 1, if j < |a| then j else j - 1;
      if i != |a| && j != |a| {
        assert s[i] == t[i'] && s[j] == t[j'];
      }
    }
  }

  lemma {:induction false} EraseDecreasing(ord: Order, keys: Keys, s: seq<Node>, s': seq<Node>, n: Node, i: nat)
    requires Decreasing(ord, keys, s) && IsErasedAt(s, s', n, i)
    ensures Decreasing(ord, keys, s')
  {}

  /** The part of the tree still to be searched, with everything before it above and after it below the key. */
  ghost predicate Narrowed(ord: Order, keys: Keys, c: Ctx<Node>, t: Shape<Node>, key: Key) {
    && Decreasing(ord, keys, Inorder(t))
    && AllAbove(ord, keys, Before(c), key) && AllBelow(ord, keys, After(c), key)
  }

  lemma {:induction false} Narrow(ord: Order, keys: Keys, c: Ctx<Node>, l: Shape<Node>, n: Node, b: bool,
                                  r: Shape<Node>, key: Key)
    requires Narrowed(ord, keys, c, Bin(l, n, b, r), key)
    ensures n in keys
    ensures Compare(ord, keys[n], key) < 0 ==> Narrowed(ord, keys, InL(c, n, b, r), l, key)
    ensures Compare(ord, keys[n], key) > 0 ==> Narrowed(ord, keys, InR(c, l, n, b), r, key)
  {
    SplitDecreasing(ord, keys, Inorder(l), n, Inorder(r));
    LessOrder(ord, key, keys[n], key);
    if Compare(ord, keys[n], key) < 0 {
      BelowTrans(ord, keys, Inorder(r), keys[n], key);
    } else if Compare(ord, keys[n], key) > 0 {
      AboveTrans(ord, keys, Inorder(l), keys[n], key);
    }
  }

  /** The way to a key: `found` holds it, or no node does and `c` is the empty link where it belongs. */
  method Search(tree: Tree, keys: Keys, ord: Order, key: Key)
    returns (found: Node?, parent: Node?, left: bool, ghost c: Ctx<Node>)
    requires tree.Valid() && Decreasing(ord, keys, Inorder(tree.shape))
    ensures found != null ==> found in tree.repr && found in keys && keys[found] == key
    ensures found == null ==> forall n | n in tree.repr :: n in keys && keys[n] != key
    ensures found == null ==>
              && Zip(c, Leaf) == tree.shape && parent == ParentOf(c) && (parent != null ==> left == c.InL?)
              && AllAbove(ord, keys, Before(c), key) && AllBelow(ord, keys, After(c), key)
  {
    c, parent, left := Top, null, true;
    ghost var t := tree.shape;
    var new_ := tree.root;
    while new_ != null
      invariant Zip(c, t) == tree.shape && At(Snap(tree.repr), tree.root, c, t) && new_ == RootOf(t)
      invariant parent == ParentOf(c) && (parent != null ==> left == c.InL?)
      invariant Narrowed(ord, keys, c, t, key)
      decreases t
    {
      ghost var l, b, r := t.left, t.black, t.right;
      assert new_.left == RootOf(l) && new_.right == RootOf(r);
      Move(Snap(tree.repr), tree.root, c, l, new_, b, r);
      Narrow(ord, keys, c, l, new_, b, r, key);
      var res := Compare(ord, keys[new_], key);
      if res == 0 {
        found := new_;
        break;
      }
      parent, left := new_, res < 0;
      if left {
        new_ := new_.left;
        c, t := InL(c, parent, b, r), l;
      } else {
        new_ := new_.right;
        c, t := InR(c, l, parent, b), r;
      }
    }
    found := new_;
    if found == null {
      Missed(ord, keys, c, key);
    }
  }

  /** When the search ends at an empty link, no node has the key. */
  lemma {:induction false} Missed(ord: Order, keys: Keys, c: Ctx<Node>, key: Key)
    requires Narrowed(ord, keys, c, Leaf, key)
    ensures forall n | n in Nodes(Zip(c, Leaf)) :: n in keys && keys[n] != key
  {
    ZipInorder(c, Leaf);
    InorderNodes(Zip(c, Leaf));
    assert Inorder(Zip(c, Leaf)) == Before(c) + After(c);
    forall n | n in Nodes(Zip(c, Leaf)) ensures n in keys && keys[n] != key {
      assert n in Inorder(Zip(c, Leaf));
      if n in Before(c) {
        var i :| 0 <= i < |Before(c)| && Before(c)[i] == n;
      } else {
        var i :| 0 <= i < |After(c)| && After(c)[i] == n;
      }
    }
  }

  lemma {:induction false} DecreasingFrame(ord: Order, keys: Keys, keys': Keys, s: seq<Node>)
    requires Decreasing(ord, keys, s) && forall n | n in s :: n in keys' && keys'[n] == keys[n]
    ensures Decreasing(ord, keys', s)
  {}
}
