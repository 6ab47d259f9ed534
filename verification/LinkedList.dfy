/** The intrusive doubly linked list; `nodes` is the sequence that the links spell out. */
module LinkedList {

  class ListNode {
    var prev: ListNode?
    var next: ListNode?

    constructor ()
    {
      prev, next := null, null;
    }
  }

  datatype Link = Link(prev: ListNode?, next: ListNode?)

  ghost predicate AreLinks(m: map<ListNode, Link>, s: set<ListNode>)
    reads s
  {
    m.Keys == s && forall n {:trigger m[n]} | n in s :: m[n] == Link(n.prev, n.next)
  }

  ghost function Links(s: set<ListNode>): (m: map<ListNode, Link>)
    reads s
    ensures AreLinks(m, s)
  {
    assert AreLinks(map n | n in s :: Link(n.prev, n.next), s);
    var m :| AreLinks(m, s); m
  }

  /** The node at a position, or null before the first and after the last. */
  ghost function Nth(s: seq<ListNode>, i: int): ListNode? {
    if 0 <= i < |s| then s[i] else null
  }

  ghost predicate LinkedAt(m: map<ListNode, Link>, s: seq<ListNode>, i: nat)
    requires i < |s|
  {
    s[i] in m && m[s[i]] == Link(Nth(s, i - 1), Nth(s, i + 1))
  }

  /** The links of the nodes and the two ends spell out `s`. */
  ghost predicate Chain(m: map<ListNode, Link>, s: seq<ListNode>, head: ListNode?, tail: ListNode?) {
    && AllDifferent(s) && (forall i | 0 <= i < |s| :: LinkedAt(m, s, i))
    && head == Nth(s, 0) && tail == Nth(s, |s| - 1)
  }

  ghost predicate Except(m: map<ListNode, Link>, m': map<ListNode, Link>, t: set<ListNode?>) {
    forall n | n in m && n !in t :: n in m' && m'[n] == m[n]
  }

  ghost predicate Appended(m: map<ListNode, Link>, m': map<ListNode, Link>, head: ListNode?, tail: ListNode?,
                           head': ListNode?, n: ListNode) {
    && n !in m && n in m' && m'[n] == Link(tail, null) && Except(m, m', {tail})
    && if tail == null then head' == n
       else head' == head && tail in m && tail in m' && m'[tail] == Link(m[tail].prev, n)
  }

  lemma {:induction false} AppendChain(m: map<ListNode, Link>, m': map<ListNode, Link>, s: seq<ListNode>,
                                       head: ListNode?, tail: ListNode?, head': ListNode?, n: ListNode)
    requires Chain(m, s, head, tail) && Appended(m, m', head, tail, head', n)
    ensures Chain(m', s + [n], head', n)
  {
    var t := s + [n];
    assert forall i | 0 <= i < |s| :: s[i] != n by {
      assert forall i | 0 <= i < |s| :: LinkedAt(m, s, i) ==> s[i] in m;
    }
    forall i | 0 <= i < |t| ensures LinkedAt(m', t, i) {
      if i < |s| {
        assert LinkedAt(m, s, i);
      }
    }
  }

  ghost predicate Bypassed(m: map<ListNode, Link>, m': map<ListNode, Link>, head: ListNode?, tail: ListNode?,
                           head': ListNode?, tail': ListNode?, n: ListNode) {
    n in m &&
    var p, q := m[n].prev, m[n].next;
    && Except(m, m', {n, p, q})
    && (if p == null then head' == q else
            head' == head && p in m && p in m' && m'[p].next == q && (p != q ==> m'[p].prev == m[p].prev))
    && (if q == null then tail' == p else
            tail' == tail && q in m && q in m' && m'[q].prev == p && (p != q ==> m'[q].next == m[q].next))
  }

  lemma {:induction false} BackAgain(s: set<ListNode>, n: ListNode)
    requires n in s
    ensures s - {n} + {n} == s
  {}

  ghost predicate AllDifferent(s: seq<ListNode>) {
    forall i, j | 0 <= i < j < |s| :: s[i] != s[j]
  }

  /** The link of a node other than the one taken out. */
  lemma {:induction false} BypassLink(m: map<ListNode, Link>, m': map<ListNode, Link>, s: seq<ListNode>, i: nat,
                                      k: nat, head: ListNode?, tail: ListNode?, head': ListNode?, tail': ListNode?)
    requires i < |s| && k < |s| && k != i && AllDifferent(s) && LinkedAt(m, s, i) && LinkedAt(m, s, k)
    requires Bypassed(m, m', head, tail, head', tail', s[i])
    ensures s[k] in m' && m'[s[k]] == Link(Nth(s, if k == i + 1 then i - 1 else k - 1),
            Nth(s, if k == i - 1 then i + 1 else k + 1))
  {
    assert k == i - 1 || s[k] != Nth(s, i - 1);
    assert k == i + 1 || s[k] != Nth(s, i + 1);
  }

  lemma {:induction false} BypassChain(m: map<ListNode, Link>, m': map<ListNode, Link>, s: seq<ListNode>, i: nat,
                                       head: ListNode?, tail: ListNode?, head': ListNode?, tail': ListNode?)
    requires Chain(m, s, head, tail) && i < |s| && Bypassed(m, m', head, tail, head', tail', s[i])
    ensures Chain(m', s[..i] + s[i + 1..], head', tail')
  {
    var t := s[..i] + s[i + 1..];
    assert LinkedAt(m, s, i);
    forall j | 0 <= j < |t| ensures LinkedAt(m', t, j) {
      var k := if j < i then j else j + 1;
      assert LinkedAt(m, s, k);
      BypassLink(m, m', s, i, k, head, tail, head', tail');
    }
  }

  lemma {:induction false} Neighbours(m: map<ListNode, Link>, s: seq<ListNode>, i: nat, head: ListNode?,
                                      tail: ListNode?)
    requires Chain(m, s, head, tail) && i < |s|
    ensures s[i] in m && (m[s[i]].prev != null ==> m[s[i]].prev in m && m[s[i]].prev != s[i])
    ensures m[s[i]].next != null ==> m[s[i]].next in m && m[s[i]].next != s[i]
  {
    assert LinkedAt(m, s, i);
    assert i > 0 ==> LinkedAt(m, s, i - 1);
    assert i + 1 < |s| ==> LinkedAt(m, s, i + 1);
  }

  lemma {:induction false} Ends(m: map<ListNode, Link>, s: seq<ListNode>, head: ListNode?, tail: ListNode?)
    requires Chain(m, s, head, tail)
    ensures tail != null ==> tail in m
    ensures head != null ==> head in m
  {
    assert s != [] ==> LinkedAt(m, s, 0) && LinkedAt(m, s, |s| - 1);
  }

  class List {
    var head: ListNode?
    var tail: ListNode?
    ghost var repr: set<ListNode>
    ghost var nodes: seq<ListNode>

    constructor ()
      ensures Valid() && nodes == [] && repr == {}
    {
      head, tail, nodes, repr := null, null, [], {};
    }

    ghost predicate Valid()
      reads this, repr
    {
      && Chain(Links(repr), nodes, head, tail)
      && (forall n | n in repr :: n in nodes)
    }

    /** add_tail */
    method AddTail(node: ListNode)
      requires Valid() && node !in repr
      modifies this, repr, node
      ensures Valid() && nodes == old(nodes) + [node] && repr == old(repr) + {node}
    {
      ghost var m := Links(repr);
      Ends(m, nodes, head, tail);
      AddTailLinks(node);
      AppendChain(m, Links(repr), nodes, old(head), old(tail), head, node);
      nodes := nodes + [node];
    }

    method AddTailLinks(node: ListNode)
      requires node !in repr && (tail != null ==> tail in repr)
      modifies this`head, this`tail, this`repr, repr, node
      ensures repr == old(repr) + {node} && tail == node
      ensures Appended(old(Links(repr)), Links(repr), old(head), old(tail), head, node)
    {
      node.prev := tail;
      node.next := null;
      if tail != null {
        tail.next := node;
      } else {
        head := node;
      }
      tail := node;
      repr := repr + {node};
    }

    /** del: take out the node at position `i`. */
    method Del(node: ListNode, ghost i: nat)
      requires Valid() && i < |nodes| && nodes[i] == node
      modifies this, repr
      ensures Valid() && nodes == old(nodes)[..i] + old(nodes)[i + 1..] && repr == old(repr) - {node}
    {
      ghost var m := Links(repr);
      Neighbours(m, nodes, i, head, tail);
      DelLinks(node);
      BypassChain(m, Links(repr), nodes, i, old(head), old(tail), head, tail);
      nodes := nodes[..i] + nodes[i + 1..];
    }

    method DelFirst() returns (first: ListNode)
      requires Valid() && nodes != []
      modifies this, repr
      ensures Valid() && first == old(nodes)[0] && nodes == old(nodes)[1..] && repr == old(repr) - {first}
    {
      Neighbours(Links(repr), nodes, 0, head, tail);
      first := head;
      Del(first, 0);
    }

    /** del and add_tail: a node moves to the end. */
    method MoveToTail(node: ListNode, ghost i: nat)
      requires Valid() && i < |nodes| && nodes[i] == node
      modifies this, repr
      ensures Valid() && nodes == old(nodes)[..i] + old(nodes)[i + 1..] + [node] && repr == old(repr)
    {
      Neighbours(Links(repr), nodes, i, head, tail);
      BackAgain(repr, node);
      Del(node, i);
      AddTail(node);
    }

    method DelLinks(node: ListNode)
      requires node in repr && (node.prev != null ==> node.prev in repr - {node}) &&
               (node.next != null ==> node.next in repr - {node})
      modifies this`head, this`tail, this`repr, repr
      ensures repr == old(repr) - {node}
      ensures Bypassed(old(Links(repr)), Links(repr), old(head), old(tail), head, tail, node)
    {
      if node.prev != null {
        node.prev.next := node.next;
      } else {
        head := node.next;
      }
      if node.next != null {
        node.next.prev := node.prev;
      } else {
        tail := node.prev;
      }
      repr := repr - {node};
    }
  }
}
