/** A finite map kept in a red-black tree: what the authenticator (users by name) and the mapped-DNS cache
    (entries by name) both do with the tree. */
module Dictionary {
  import opened Ordering
  import opened RbShape
  import opened RbTree
  import opened SearchTree

  datatype Item<V> = Item(key: Key, value: V)

  type Owners<V> = map<Node, Item<V>>

  function KeysOf<V>(owner: Owners<V>): Keys {
    map n | n in owner :: owner[n].key
  }

  /** The items in which tree nodes are embedded make up the finite map `items`; `at` tells which node
      holds a key. */
  ghost predicate Book<V>(owner: Owners<V>, at: map<Key, Node>, items: map<Key, V>) {
    && (forall n {:trigger NodeOk(owner, at, n)} | n in owner :: NodeOk(owner, at, n))
    && items.Keys == at.Keys
    && (forall k {:trigger KeyOk(owner, at, items, k)} | k in items :: KeyOk(owner, at, items, k))
  }

  ghost predicate NodeOk<V>(owner: Owners<V>, at: map<Key, Node>, n: Node) {
    n in owner && owner[n].key in at && at[owner[n].key] == n
  }

  ghost predicate KeyOk<V>(owner: Owners<V>, at: map<Key, Node>, items: map<Key, V>, k: Key) {
    && k in at && at[k] in owner && owner[at[k]].key == k
    && k in items && items[k] == owner[at[k]].value
  }

  lemma {:induction false} BookAdd<V>(owner: Owners<V>, at: map<Key, Node>, items: map<Key, V>, n: Node, key: Key, v: V)
    requires Book(owner, at, items) && n !in owner && key !in items
    ensures Book(owner[n := Item(key, v)], at[key := n], items[key := v])
  {
    var owner', at', items' := owner[n := Item(key, v)], at[key := n], items[key := v];
    forall m | m in owner' ensures NodeOk(owner', at', m) { assert m != n ==> NodeOk(owner, at, m); }
    forall k | k in items' ensures KeyOk(owner', at', items', k) { assert k != key ==> KeyOk(owner, at, items, k); }
  }

  lemma {:induction false} BookRemove<V>(owner: Owners<V>, at: map<Key, Node>, items: map<Key, V>, n: Node)
    requires Book(owner, at, items) && n in owner
    ensures Book(owner - {n}, at - {owner[n].key}, items - {owner[n].key})
  {
    var k0 := owner[n].key;
    var owner', at', items' := owner - {n}, at - {k0}, items - {k0};
    assert NodeOk(owner, at, n);
    forall m | m in owner' ensures NodeOk(owner', at', m) { assert NodeOk(owner, at, m); }
    forall k | k in items' ensures KeyOk(owner', at', items', k) { assert KeyOk(owner, at, items, k); }
  }

  lemma {:induction false} BookEmpty<V>(owner: Owners<V>, at: map<Key, Node>, items: map<Key, V>)
    requires Book(owner, at, items) && owner.Keys == {}
    ensures items == map[]
  {
    forall k ensures k !in items {
      if KeyOk(owner, at, items, k) {}
    }
  }

  /** The key of `item` is below those of all nodes before the context `c` and above those after it. */
  ghost predicate Fits<V>(ord: Order, owner: Owners<V>, c: Ctx<Node>, key: Key) {
    AllAbove(ord, KeysOf(owner), Before(c), key) && AllBelow(ord, KeysOf(owner), After(c), key)
  }

  lemma {:induction false} AddDecreasing<V>(ord: Order, owner: Owners<V>, c: Ctx<Node>, n: Node, item: Item<V>,
                                            s: seq<Node>, s': seq<Node>)
    requires Decreasing(ord, KeysOf(owner), s) && n !in owner && Fits(ord, owner, c, item.key)
    requires IsInserted(c, n, s, s')
    ensures Decreasing(ord, KeysOf(owner[n := item]), s')
  {
    var names, names' := KeysOf(owner), KeysOf(owner[n := item]);
    DecreasingFrame(ord, names, names', s);
    InsertDecreasing(ord, names', Before(c), n, After(c));
  }

  lemma {:induction false} RemoveDecreasing<V>(ord: Order, owner: Owners<V>, s: seq<Node>, s': seq<Node>, n: Node,
                                               i: nat)
    requires Decreasing(ord, KeysOf(owner), s) && IsErasedAt(s, s', n, i)
    ensures Decreasing(ord, KeysOf(owner - {n}), s')
  {
    EraseDecreasing(ord, KeysOf(owner), s, s', n, i);
    forall j | 0 <= j < |s| && j != i ensures s[j] != n {
      LessOrder(ord, owner[s[j]].key, owner[n].key, owner[n].key);
    }
    DecreasingFrame(ord, KeysOf(owner), KeysOf(owner - {n}), s');
  }

  class Dictionary<V> {
    const ord: Order
    const tree: Tree
    var owner: Owners<V>                 // container_of: the item in which a tree node is embedded
    ghost var at: map<Key, Node>
    ghost var items: map<Key, V>         // the finite map that the tree stands for

    constructor (ord: Order)
      ensures Valid() && this.ord == ord && fresh(tree) && tree.repr == {} && items == map[]
    {
      this.ord := ord;
      tree := new Tree();
      owner, at, items := map[], map[], map[];
    }

    ghost predicate Valid()
      reads this, tree, tree.repr
    {
      && tree.Valid() && owner.Keys == tree.repr && Book(owner, at, items)
      && Decreasing(ord, KeysOf(owner), Inorder(tree.shape))
    }

    /** Where a key is, or the empty link where it belongs. */
    method Find(key: Key) returns (found: Node?, parent: Node?, left: bool, ghost c: Ctx<Node>)
      requires Valid()
      ensures found == null <==> key !in items
      ensures found != null ==>
              found in owner && owner[found].key == key && at[key] == found && owner[found].value == items[key]
      ensures found == null ==> Gap(key, parent, left, c)
    {
      found, parent, left, c := Search(tree, KeysOf(owner), ord, key);
      assert found != null ==> NodeOk(owner, at, found) && KeyOk(owner, at, items, key);
      assert key in items ==> KeyOk(owner, at, items, key);
    }

    /** The empty link `left` of `parent` is where a node for `key` goes. */
    ghost predicate Gap(key: Key, parent: Node?, left: bool, c: Ctx<Node>)
      reads this, tree
    {
      && tree.shape == Zip(c, Leaf) && parent == ParentOf(c) && (parent != null ==> left == c.InL?)
      && Fits(ord, owner, c, key)
    }

    method Enrol(key: Key, value: V, node: Node)
      requires node !in owner && key !in items && Book(owner, at, items)
      modifies this`owner, this`at, this`items
      ensures Book(owner, at, items) && owner == old(owner)[node := Item(key, value)]
      ensures at == old(at)[key := node] && items == old(items)[key := value]
    {
      BookAdd(owner, at, items, node, key, value);
      owner, at, items := owner[node := Item(key, value)], at[key := node], items[key := value];
    }

    method Drop(node: Node, ghost key: Key)
      requires node in owner && owner[node].key == key && Book(owner, at, items)
      modifies this`owner, this`at, this`items
      ensures Book(owner, at, items) && owner == old(owner) - {node}
      ensures at == old(at) - {key} && items == old(items) - {key}
    {
      BookRemove(owner, at, items, node);
      owner, at, items := owner - {node}, at - {key}, items - {key};
    }

    /** node_link and insert_color: a new key comes in where the search for it ended. */
    method Link(key: Key, value: V, node: Node, parent: Node?, left: bool, ghost c: Ctx<Node>)
      requires Valid() && node !in tree.repr && key !in items && Gap(key, parent, left, c)
      modifies this, tree, tree.repr, node
      ensures Valid() && tree.repr == old(tree.repr) + {node}
      ensures at == old(at)[key := node] && items == old(items)[key := value]
    {
      ghost var o, s := owner, Inorder(tree.shape);
      Enrol(key, value, node);
      tree.Insert(node, parent, left, c);
      assert tree.Valid() && owner.Keys == tree.repr && Book(owner, at, items);
      AddDecreasing(ord, o, c, node, Item(key, value), s, Inorder(tree.shape));
    }

    /** erase: the node of a key goes, and nothing else. */
    method Remove(node: Node, ghost key: Key)
      requires Valid() && node in owner && owner[node].key == key
      modifies this, tree, tree.repr
      ensures Valid() && tree.repr == old(tree.repr) - {node}
      ensures at == old(at) - {key} && items == old(items) - {key}
    {
      ghost var o, s := owner, Inorder(tree.shape);
      Drop(node, key);
      tree.Erase(node);
      ghost var i: nat :| IsErasedAt(s, Inorder(tree.shape), node, i);
      RemoveDecreasing(ord, o, s, Inorder(tree.shape), node, i);
    }

    method First() returns (n: Node?)
      requires Valid()
      ensures if n == null then tree.repr == {} && items == map[] else n in owner
    {
      n := tree.Extreme(true);
      if n == null {
        BookEmpty(owner, at, items);
      }
    }

    method RemoveFirst(n: Node) returns (n': Node?)
      requires Valid() && n in owner
      modifies this, tree, tree.repr
      ensures Valid() && tree.repr < old(tree.repr)
      ensures if n' == null then tree.repr == {} && items == map[] else n' in owner
    {
      Remove(n, owner[n].key);
      n' := First();
    }

    /** Erase the first node until none is left. */
    method Clear()
      requires Valid()
      modifies this, tree, tree.repr
      ensures Valid() && tree.repr == {} && items == map[]
    {
      var n := First();
      while n != null
        invariant Valid() && tree.repr <= old(tree.repr)
        invariant if n == null then tree.repr == {} && items == map[] else n in owner
        decreases tree.repr
      {
        n := RemoveFirst(n);
      }
    }
  }
}
