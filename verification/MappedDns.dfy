/** The mapped-DNS cache: names get addresses of a private network; the least recently used name gives
    its address up when all are taken. */
module MappedDns {
  import opened Options
  import opened Ordering
  import R = Recency
  import opened CacheIndex
  import opened RbShape
  import opened RbTree
  import opened LinkedList
  import D = Dictionary

  type DnsEntry = Entry<Key, Node, ListNode>

  class MappedDns {
    const max: nat
    const net: nat
    const hosts: nat                      // ~mask + 1: the number of host addresses
    const dict: D.Dictionary<DnsEntry>    // the tree, by name
    const list: List                      // by last use
    const records: array<Option<DnsEntry>>
    var use: nat
    var byList: map<ListNode, DnsEntry>   // container_of, for a list node

    constructor (net: nat, hosts: nat, max: nat)
      requires 0 < max < hosts && net % hosts == 0
      ensures Valid(R.Cache([], map[])) && fresh(dict) && fresh(dict.tree) && fresh(list) && fresh(records)
      ensures dict.tree.repr == {} && list.repr == {}
      ensures this.net == net && this.hosts == hosts && this.max == max
    {
      this.net, this.hosts, this.max, use, byList := net, hosts, max, 0, map[];
      list := new List();
      dict := new D.Dictionary(Strcmp);
      records := new Option<DnsEntry>[max](_ => None);
      new;
      EmptyIndexed(max, State());
    }

    ghost predicate Structures()
      reads this`byList, dict, dict.tree, dict.tree.repr, list, list.repr
    {
      dict.Valid() && dict.ord == Strcmp && list.Valid() && byList.Keys == list.repr
    }

    ghost function State(): Index<Key, Node, ListNode>
      reads this`byList, dict, list, records
    {
      Index(dict.items, dict.at, byList, list.nodes, records[..])
    }

    ghost predicate Valid(c: R.Cache<Key>)
      reads this`byList, this`use, dict, dict.tree, dict.tree.repr, list, list.repr, records
    {
      0 < max < hosts && net % hosts == 0 && use == |c.live| && Structures() && Indexed(max, State(), c)
    }

    // ---- One structure at a time ----

    method Promote(node: ListNode, ghost i: nat)
      requires list.Valid() && i < |list.nodes| && list.nodes[i] == node
      modifies list, list.repr
      ensures list.Valid() && list.nodes == Moved(old(list.nodes), i) && list.repr == old(list.repr)
      ensures unchanged(this) && unchanged(dict) && unchanged(dict.tree) && unchanged(dict.tree.repr) &&
              unchanged(records)
    {
      list.MoveToTail(node, i);
    }

    method LinkTree(e: DnsEntry, parent: Node?, left: bool, ghost gap: Ctx<Node>)
      requires dict.Valid() && e.tree !in dict.tree.repr && e.name !in dict.items && dict.Gap(e.name, parent, left, gap)
      modifies dict, dict.tree, dict.tree.repr, e.tree
      ensures dict.Valid() && dict.tree.repr == old(dict.tree.repr) + {e.tree}
      ensures var x := old(State()); State() == x.(entry := x.entry[e.name := e], at := x.at[e.name := e.tree])
      ensures unchanged(this) && unchanged(list) && unchanged(list.repr) && unchanged(records)
    {
      dict.Link(e.name, e, e.tree, parent, left, gap);
    }

    method LinkList(e: DnsEntry)
      requires list.Valid() && byList.Keys == list.repr && e.list !in list.repr
      modifies this`byList, list, list.repr, e.list
      ensures list.Valid() && byList.Keys == list.repr == old(list.repr) + {e.list}
      ensures var x := old(State()); State() == x.(byList := x.byList[e.list := e], order := x.order + [e.list])
      ensures unchanged(this`use) && unchanged(dict) && unchanged(dict.tree) && unchanged(dict.tree.repr) &&
              unchanged(records)
    {
      list.AddTail(e.list);
      byList := byList[e.list := e];
    }

    method UnlinkTree(node: Node, ghost key: Key)
      requires dict.Valid() && node in dict.owner && dict.owner[node].key == key
      modifies dict, dict.tree, dict.tree.repr
      ensures dict.Valid() && dict.tree.repr == old(dict.tree.repr) - {node}
      ensures var x := old(State()); State() == x.(entry := x.entry - {key}, at := x.at - {key})
      ensures unchanged(this) && unchanged(list) && unchanged(list.repr) && unchanged(records)
    {
      dict.Remove(node, key);
    }

    method UnlinkFirst()
      requires list.Valid() && byList.Keys == list.repr && list.nodes != []
      modifies this`byList, list, list.repr
      ensures list.Valid() && byList.Keys == list.repr == old(list.repr) - {old(list.nodes)[0]}
      ensures var x := old(State()); State() == x.(byList := x.byList - {x.order[0]}, order := x.order[1..])
      ensures unchanged(this`use) && unchanged(dict) && unchanged(dict.tree) && unchanged(dict.tree.repr) &&
              unchanged(records)
    {
      var first := list.DelFirst();
      byList := byList - {first};
    }

    // ---- All three together ----

    /** Move the list node of a live name to the end of the list. */
    method Refresh(e: DnsEntry, ghost c: R.Cache<Key>)
      requires Valid(c) && e.name in dict.items && dict.items[e.name] == e
      modifies list, list.repr
      ensures Valid(c.(live := R.Touch(c.live, e.name))) && list.repr == old(list.repr) && unchanged(dict.tree)
    {
      ghost var x := State();
      ghost var i := Place(max, x, c, e.name);
      Promote(e.list, i);
      TouchIndexed(max, x, c, e.name);
      assert State() == x.(order := Moved(x.order, i));
    }

    method Admit(e: DnsEntry, parent: Node?, left: bool, ghost gap: Ctx<Node>)
      requires Structures() && e.name !in dict.items && e.tree !in dict.tree.repr && e.list !in list.repr
      requires dict.Gap(e.name, parent, left, gap)
      modifies this`byList, dict, dict.tree, dict.tree.repr, e.tree, list, list.repr, e.list
      ensures Structures() && State() == With(old(State()), e)
      ensures dict.tree.repr == old(dict.tree.repr) + {e.tree} && list.repr == old(list.repr) + {e.list}
      ensures unchanged(this`use)
    {
      LinkTree(e, parent, left, gap);
      LinkList(e);
    }

    /** The least recently used entry goes. */
    method Expel(out: DnsEntry)
      requires Structures() && out.name in dict.at && dict.at[out.name] == out.tree
      requires list.nodes != [] && list.nodes[0] == out.list
      modifies this`byList, dict, dict.tree, dict.tree.repr, list, list.repr
      ensures Structures() && State() == WithoutFirst(old(State()), out)
      ensures dict.tree.repr == old(dict.tree.repr) - {out.tree} && list.repr == old(list.repr) - {out.list}
      ensures unchanged(this`use)
    {
      assert D.KeyOk(dict.owner, dict.at, dict.items, out.name);
      UnlinkTree(out.tree, out.name);
      UnlinkFirst();
    }

    method Store(e: DnsEntry, use': nat)
      requires Structures() && e.idx < records.Length
      modifies this`use, records
      ensures Structures() && use == use' && State() == Stored(old(State()), e)
      ensures unchanged(dict.tree) && unchanged(list)
    {
      records[e.idx] := Some(e);
      use := use';
    }

    method GrowStructures(e: DnsEntry, parent: Node?, left: bool, ghost gap: Ctx<Node>)
      requires Structures() && e.name !in dict.items && e.tree !in dict.tree.repr && e.list !in list.repr
      requires dict.Gap(e.name, parent, left, gap) && e.idx < records.Length
      modifies this, dict, dict.tree, dict.tree.repr, e.tree, list, list.repr, e.list, records
      ensures Structures() && State() == Stored(With(old(State()), e), e) && use == old(use) + 1
      ensures dict.tree.repr == old(dict.tree.repr) + {e.tree} && list.repr == old(list.repr) + {e.list}
    {
      Admit(e, parent, left, gap);
      Store(e, use + 1);
    }

    /** A new name while there are free slots. */
    method Grow(e: DnsEntry, parent: Node?, left: bool, ghost gap: Ctx<Node>, ghost c: R.Cache<Key>)
      requires Valid(c) && use < max && e.idx == use
      requires e.name !in dict.items && e.tree !in dict.tree.repr && e.list !in list.repr
      requires dict.Gap(e.name, parent, left, gap)
      modifies this, dict, dict.tree, dict.tree.repr, e.tree, list, list.repr, e.list, records
      ensures var c' := R.Step(max, c, R.Find(e.name)).0; Valid(c') && SlotIs(c', e.name, e.idx)
      ensures dict.tree.repr == old(dict.tree.repr) + {e.tree} && list.repr == old(list.repr) + {e.list}
    {
      AddIndexed(max, State(), c, e);
      GrowStructures(e, parent, left, gap);
    }

    method ReplaceStructures(out: DnsEntry, e: DnsEntry, parent: Node?, left: bool, ghost gap: Ctx<Node>)
      requires Structures() && e.name !in dict.items && e.tree !in dict.tree.repr && e.list !in list.repr
      requires dict.Gap(e.name, parent, left, gap) && e.idx < records.Length
      requires out.name in dict.at && dict.at[out.name] == out.tree && list.nodes != [] && list.nodes[0] == out.list
      modifies this, dict, dict.tree, dict.tree.repr, e.tree, list, list.repr, e.list, records
      ensures Structures() && State() == Stored(WithoutFirst(With(old(State()), e), out), e) && use == old(use)
      ensures dict.tree.repr <= old(dict.tree.repr) + {e.tree} && list.repr <= old(list.repr) + {e.list}
    {
      Admit(e, parent, left, gap);
      Expel(out);
      Store(e, use);
    }

    /** A new name when all slots are taken: the least recently used name gives up its slot. */
    method Evict(e: DnsEntry, parent: Node?, left: bool, ghost gap: Ctx<Node>, ghost c: R.Cache<Key>)
      requires Valid(c) && use == max && list.head != null && list.head in byList && e.idx == byList[list.head].idx
      requires e.name !in dict.items && e.tree !in dict.tree.repr && e.list !in list.repr
      requires dict.Gap(e.name, parent, left, gap)
      modifies this, dict, dict.tree, dict.tree.repr, e.tree, list, list.repr, e.list, records
      ensures var c' := R.Step(max, c, R.Find(e.name)).0; Valid(c') && SlotIs(c', e.name, e.idx)
      ensures dict.tree.repr <= old(dict.tree.repr) + {e.tree} && list.repr <= old(list.repr) + {e.list}
    {
      FirstEntry(list, max, State(), c);
      ReplaceIndexed(max, State(), c, e);
      ReplaceStructures(byList[list.head], e, parent, left, gap);
    }

    /** A name that is in the tree is used again. */
    method Hit(e: DnsEntry, name: Key, ghost c: R.Cache<Key>) returns (idx: nat)
      requires Valid(c) && name in dict.items && dict.items[name] == e
      modifies list, list.repr
      ensures var c' := R.Step(max, c, R.Find(name)).0; Valid(c') && SlotIs(c', name, idx)
      ensures list.repr == old(list.repr) && dict.tree.repr == old(dict.tree.repr)
    {
      NameOf(max, State(), c, name);
      Refresh(e, c);
      idx := e.idx;
    }

    /** A name that is not in the tree: it gets the next slot, or that of the first name of the list. */
    method Insert(name: Key, tree: Node, node: ListNode, parent: Node?, left: bool, ghost gap: Ctx<Node>,
                  ghost c: R.Cache<Key>)
      returns (idx: nat)
      requires Valid(c) && name !in dict.items && tree !in dict.tree.repr && node !in list.repr
      requires dict.Gap(name, parent, left, gap)
      modifies this, dict, dict.tree, dict.tree.repr, tree, list, list.repr, node, records
      ensures var c' := R.Step(max, c, R.Find(name)).0; Valid(c') && SlotIs(c', name, idx)
      ensures dict.tree.repr <= old(dict.tree.repr) + {tree} && list.repr <= old(list.repr) + {node}
    {
      idx := use;
      if use < max {
        Grow(Entry(name, idx, tree, node), parent, left, gap, c);
      } else {
        FirstEntry(list, max, State(), c);
        idx := byList[list.head].idx;
        Evict(Entry(name, idx, tree, node), parent, left, gap, c);
      }
    }

    /** What find does once the tree has been searched. */
    method Use(found: Node?, name: Key, tree: Node, node: ListNode, parent: Node?, left: bool, ghost gap: Ctx<Node>,
               ghost c: R.Cache<Key>)
      returns (idx: nat)
      requires Valid(c) && tree !in dict.tree.repr && node !in list.repr
      requires found != null ==>
               name in dict.items && found in dict.owner && dict.items[name] == dict.owner[found].value
      requires found == null ==> name !in dict.items && dict.Gap(name, parent, left, gap)
      modifies this, dict, dict.tree, dict.tree.repr, tree, list, list.repr, node, records
      ensures var c' := R.Step(max, c, R.Find(name)).0; Valid(c') && SlotIs(c', name, idx)
      ensures dict.tree.repr <= old(dict.tree.repr) + {tree} && list.repr <= old(list.repr) + {node}
    {
      if found != null {
        idx := Hit(dict.owner[found].value, name, c);
      } else {
        idx := Insert(name, tree, node, parent, left, gap, c);
      }
    }

    /** find: the slot of a name, which becomes the most recently used one.  `tree` and `node` are embedded
        in the entry that a new name needs. */
    method Find(name: Key, tree: Node, node: ListNode, ghost c: R.Cache<Key>) returns (idx: nat)
      requires Valid(c) && tree !in dict.tree.repr && node !in list.repr
      modifies this, dict, dict.tree, dict.tree.repr, tree, list, list.repr, node, records
      ensures var c' := R.Step(max, c, R.Find(name)).0; Valid(c') && SlotIs(c', name, idx)
      ensures dict.tree.repr <= old(dict.tree.repr) + {tree} && list.repr <= old(list.repr) + {node}
    {
      var found, parent, left;
      ghost var gap;
      found, parent, left, gap := dict.Find(name);
      idx := Use(found, name, tree, node, parent, left, gap, c);
    }

    /** lookup: the name that has the slot in the host part of the address; it becomes the most recently
        used one.  The network part is not looked at. */
    method Lookup(ip: nat, ghost c: R.Cache<Key>) returns (name: Option<Key>)
      requires Valid(c)
      modifies list, list.repr
      ensures var (c', r) := R.Step(max, c, R.Lookup(ip % hosts)); Valid(c') && name == r
      ensures list.repr == old(list.repr) && unchanged(dict.tree)
    {
      var idx := ip % hosts;
      RecordAt(max, State(), c, idx);
      if idx >= max || records[idx].None? {
        return None;
      }
      var e := records[idx].value;
      Refresh(e, c);
      return Some(e.name);
    }

    // ---- Whole runs ----

    /** find with a newly allocated entry. */
    method FindNew(name: Key, ghost c: R.Cache<Key>) returns (idx: nat)
      requires Valid(c)
      modifies this, dict, dict.tree, dict.tree.repr, list, list.repr, records
      ensures var c' := R.Step(max, c, R.Find(name)).0; Valid(c') && SlotIs(c', name, idx)
      ensures forall n | n in dict.tree.repr :: n in old(dict.tree.repr) || fresh(n)
      ensures forall n | n in list.repr :: n in old(list.repr) || fresh(n)
    {
      var tree := new Node();
      var node := new ListNode();
      idx := Find(name, tree, node, c);
    }

    method Perform(use: Use, ghost c: R.Cache<Key>)
      requires Valid(c)
      modifies this, dict, dict.tree, dict.tree.repr, list, list.repr, records
      ensures Valid(R.Step(max, c, OpOf(hosts, use)).0)
      ensures forall n | n in dict.tree.repr :: n in old(dict.tree.repr) || fresh(n)
      ensures forall n | n in list.repr :: n in old(list.repr) || fresh(n)
    {
      match use
      case FindName(name) =>
        var idx := FindNew(name, c);
      case LookupIp(ip) =>
        var name := Lookup(ip, c);
    }

    /** Any number of finds and lookups. */
    method Run(uses: seq<Use>, ghost c: R.Cache<Key>)
      requires Valid(c)
      modifies this, dict, dict.tree, dict.tree.repr, list, list.repr, records
      ensures Valid(R.RunFrom(max, c, OpsOf(hosts, uses)).0)
      ensures forall n | n in dict.tree.repr :: n in old(dict.tree.repr) || fresh(n)
      ensures forall n | n in list.repr :: n in old(list.repr) || fresh(n)
    {
      ghost var c' := c;
      for k := 0 to |uses|
        invariant c' == R.RunFrom(max, c, OpsOf(hosts, uses[..k])).0 && Valid(c')
        invariant forall n | n in dict.tree.repr :: n in old(dict.tree.repr) || fresh(n)
        invariant forall n | n in list.repr :: n in old(list.repr) || fresh(n)
      {
        RunOne(max, c, hosts, uses, k);
        Perform(uses[k], c');
        c' := R.Step(max, c', OpOf(hosts, uses[k])).0;
      }
      assert uses[..|uses|] == uses;
    }

    /** A find, and then any use of the cache. */
    method FindThenRun(name: Key, uses: seq<Use>, ghost c: R.Cache<Key>) returns (ip: nat)
      requires Valid(c)
      modifies this, dict, dict.tree, dict.tree.repr, list, list.repr, records
      ensures var c' := R.Step(max, c, R.Find(name)).0;
        && R.Wellformed(max, c') && Valid(R.RunFrom(max, c', OpsOf(hosts, uses)).0)
        && net <= ip < net + max && SlotIs(c', name, ip - net)
      ensures forall n | n in dict.tree.repr :: n in old(dict.tree.repr) || fresh(n)
      ensures forall n | n in list.repr :: n in old(list.repr) || fresh(n)
    {
      ghost var c' := R.Step(max, c, R.Find(name)).0;
      var idx := FindNew(name, c);
      SlotBelow(max, c', name);
      Run(uses, c');
      ip := net + idx;
    }

    /** The address that find gives to a name leads lookup back to the name, for as long as the name is live. */
    method FindThenLookup(name: Key, uses: seq<Use>, ghost c: R.Cache<Key>) returns (ip: nat, found: Option<Key>)
      requires Valid(c)
      modifies this, dict, dict.tree, dict.tree.repr, list, list.repr, records
      ensures R.StaysFound(max, c, name, OpsOf(hosts, uses)) ==> found == Some(name)
      ensures net <= ip < net + max
    {
      ip := FindThenRun(name, uses, c);
      found := Lookup(ip, R.RunFrom(max, R.Step(max, c, R.Find(name)).0, OpsOf(hosts, uses)).0);
      AddressLeadsBack(max, net, hosts, c, name, OpsOf(hosts, uses), ip);
    }
  }

  /** What the tunnel asks of the cache. */
  datatype Use = FindName(name: Key) | LookupIp(ip: nat)

  function OpOf(hosts: nat, use: Use): R.Op<Key>
    requires hosts > 0
  {
    match use
    case FindName(name) => R.Find(name)
    case LookupIp(ip) => R.Lookup(ip % hosts)
  }

  function OpsOf(hosts: nat, uses: seq<Use>): (ops: seq<R.Op<Key>>)
    requires hosts > 0
    ensures |ops| == |uses|
  {
    if uses == [] then [] else OpsOf(hosts, uses[..|uses| - 1]) + [OpOf(hosts, uses[|uses| - 1])]
  }

  lemma {:induction false} RunOne(max: nat, c: R.Cache<Key>, hosts: nat, uses: seq<Use>, k: nat)
    requires max > 0 && hosts > 0 && R.Wellformed(max, c) && k < |uses|
    ensures var c' := R.RunFrom(max, c, OpsOf(hosts, uses[..k])).0;
            R.RunFrom(max, c, OpsOf(hosts, uses[..k + 1])).0 == R.Step(max, c', OpOf(hosts, uses[k])).0
  {
    assert uses[..k + 1][..k] == uses[..k];
    var ops := OpsOf(hosts, uses[..k + 1]);
    assert ops[..|ops| - 1] == OpsOf(hosts, uses[..k]);
  }

  /** The slot finds the name while it is live. */
  lemma {:induction false} LeadsBack(max: nat, c: R.Cache<Key>, n: Key, ops: seq<R.Op<Key>>, idx: nat)
    requires max > 0 && R.Wellformed(max, c)
    requires var c' := R.Step(max, c, R.Find(n)).0; R.Wellformed(max, c') && SlotIs(c', n, idx)
    ensures var c' := R.Step(max, c, R.Find(n)).0;
            R.StaysFound(max, c, n, ops) ==> R.Step(max, R.RunFrom(max, c', ops).0, R.Lookup(idx)).1 == Some(n)
  {
    if R.StaysFound(max, c, n, ops) {
      R.LookupFindsName(max, c, n, ops);
    }
  }

  lemma {:induction false} HostOf(net: nat, hosts: nat, ip: nat, idx: nat)
    requires idx < hosts && net % hosts == 0 && ip == net + idx
    ensures ip % hosts == idx
  {
    HostPart(net, hosts, idx);
  }

  lemma {:induction false} AddressLeadsBack(max: nat, net: nat, hosts: nat, c: R.Cache<Key>, n: Key,
                                            ops: seq<R.Op<Key>>, ip: nat)
    requires 0 < max < hosts && net % hosts == 0 && R.Wellformed(max, c)
    requires var c' := R.Step(max, c, R.Find(n)).0;
             R.Wellformed(max, c') && net <= ip < net + max && SlotIs(c', n, ip - net)
    ensures var c' := R.Step(max, c, R.Find(n)).0;
            R.StaysFound(max, c, n, ops) ==>
              R.Step(max, R.RunFrom(max, c', ops).0, R.Lookup(ip % hosts)).1 == Some(n)
  {
    var idx := ip - net;
    HostOf(net, hosts, ip, idx);
    LeadsBack(max, c, n, ops, idx);
  }

  lemma {:induction false} SlotBelow(max: nat, c: R.Cache<Key>, n: Key)
    requires R.Wellformed(max, c) && n in c.slot
    ensures c.slot[n] < max
  {}

  lemma {:induction false} Place(max: nat, x: Index<Key, Node, ListNode>, c: R.Cache<Key>, n: Key) returns (i: nat)
    requires Indexed(max, x, c) && n in x.entry
    ensures n in c.live && i == R.IndexOf(c.live, n) && i < |x.order| && x.order[i] == x.entry[n].list
    ensures |R.Touch(c.live, n)| == |c.live|
  {
    OrderOf(max, x, c, n);
    i := R.IndexOf(c.live, n);
  }

  lemma {:induction false} EmptyIndexed(max: nat, x: Index<Key, Node, ListNode>)
    requires x.entry == map[] && x.at == map[] && x.byList == map[] && x.order == []
    requires |x.records| == max && forall i | 0 <= i < max :: x.records[i] == None
    ensures Indexed(max, x, R.Cache([], map[]))
  {}

  lemma {:induction false} FirstEntry(list: List, max: nat, x: Index<Key, Node, ListNode>, c: R.Cache<Key>)
    requires list.Valid() && x.order == list.nodes && Indexed(max, x, c) && c.live != []
    ensures list.head != null && list.head == x.order[0] && list.head in x.byList
    ensures var e := x.byList[list.head]; e.name in x.at && x.at[e.name] == e.tree && e.list == list.head
  {
    Ends(Links(list.repr), list.nodes, list.head, list.tail);
    OrderOf(max, x, c, c.live[0]);
    assert OrderOk(x, c, 0) && NameOk(x, c, c.live[0]) && ListOk(x, x.order[0]);
  }

  lemma {:induction false} NameOf(max: nat, x: Index<Key, Node, ListNode>, c: R.Cache<Key>, n: Key)
    requires Indexed(max, x, c) && n in x.entry && max > 0
    ensures x.entry[n].name == n && SlotIs(c, n, x.entry[n].idx)
    ensures R.Step(max, c, R.Find(n)).0 == c.(live := R.Touch(c.live, n))
  {
    assert NameOk(x, c, n);
  }

  /** What is in the records array at a slot is what the cache has there. */
  lemma {:induction false} RecordAt(max: nat, x: Index<Key, Node, ListNode>, c: R.Cache<Key>, i: nat)
    requires Indexed(max, x, c) && max > 0
    ensures i >= max || x.records[i].None? ==> R.Step(max, c, R.Lookup(i)) == (c, None)
    ensures i < max && x.records[i].Some? ==>
      var e := x.records[i].value;
      && e.name in x.entry && x.entry[e.name] == e
      && R.Step(max, c, R.Lookup(i)) == (c.(live := R.Touch(c.live, e.name)), Some(e.name))
  {
    if i < max {
      assert RecordOk(x, c, i);
      if x.records[i].Some? {
        assert NameOk(x, c, x.records[i].value.name);
      }
    }
    if R.NameAt(c, i).Some? {
      assert NameOk(x, c, R.NameAt(c, i).value);
    }
  }

  /** The address handed out for a slot has that slot as its host part. */
  lemma {:induction false} HostPart(net: nat, hosts: nat, idx: nat)
    requires idx < hosts && net % hosts == 0
    ensures (net + idx) % hosts == idx
  {
    var q, q' := net / hosts, (net + idx) / hosts;
    assert net == q * hosts;
    if q' < q {
      assert (q' + 1) * hosts <= q * hosts by { Scaled(q' + 1, q, hosts); }
    } else if q < q' {
      assert (q + 1) * hosts <= q' * hosts by { Scaled(q + 1, q', hosts); }
    }
  }

  lemma {:induction false} Scaled(a: nat, b: nat, h: nat)
    requires a <= b
    ensures a * h <= b * h
  {}
}
