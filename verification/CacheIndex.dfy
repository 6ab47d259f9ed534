/** How the three structures of the mapped-DNS cache fit together: the tree (by name), the list (by last
    use) and the records array (by slot) hold the same entries.  Names, tree nodes and list nodes are
    abstract here. */
module CacheIndex {
  import opened Options
  import opened Recency

  datatype Entry<K, N, L> = Entry(name: K, idx: nat, tree: N, list: L)

  /** The entry and the tree node of a name, the entry of a list node, the list nodes from least to most
      recently used, and the entries by slot. */
  datatype Index<K(==), N(==), L(==)> = Index(
    entry: map<K, Entry<K, N, L>>,
    at: map<K, N>,
    byList: map<L, Entry<K, N, L>>,
    order: seq<L>,
    records: seq<Option<Entry<K, N, L>>>)

  ghost predicate NameOk<K, N, L>(x: Index<K, N, L>, c: Cache<K>, n: K)
  {
    && n in x.entry && n in c.slot && x.entry[n].name == n && x.entry[n].idx == c.slot[n]
    && n in x.at && x.at[n] == x.entry[n].tree
    && x.entry[n].list in x.byList && x.byList[x.entry[n].list] == x.entry[n]
  }

  ghost predicate ListOk<K, N, L>(x: Index<K, N, L>, l: L) {
    l in x.byList && x.byList[l].list == l && x.byList[l].name in x.entry && x.entry[x.byList[l].name] == x.byList[l]
  }

  ghost predicate OrderOk<K, N, L>(x: Index<K, N, L>, c: Cache<K>, i: nat)
    requires |x.order| == |c.live|
  {
    i < |c.live| ==> x.order[i] in x.byList && x.byList[x.order[i]].name == c.live[i]
  }

  ghost predicate RecordOk<K, N, L>(x: Index<K, N, L>, c: Cache<K>, i: nat)
    requires i < |x.records|
  {
    if i < |c.live| then
      x.records[i].Some? && var e := x.records[i].value; e.idx == i && e.name in x.entry && x.entry[e.name] == e
    else x.records[i].None?
  }

  ghost predicate Names<K(!new), N, L>(x: Index<K, N, L>, c: Cache<K>) {
    x.entry.Keys == c.slot.Keys && forall n {:trigger NameOk(x, c, n)} | n in c.slot :: NameOk(x, c, n)
  }

  ghost predicate Lists<K, N, L>(x: Index<K, N, L>) {
    forall l {:trigger ListOk(x, l)} | l in x.byList :: ListOk(x, l)
  }

  ghost predicate Orders<K, N, L>(x: Index<K, N, L>, c: Cache<K>) {
    |x.order| == |c.live| && forall i: nat {:trigger OrderOk(x, c, i)} :: OrderOk(x, c, i)
  }

  ghost predicate Records<K, N, L>(max: nat, x: Index<K, N, L>, c: Cache<K>) {
    |x.records| == max && forall i: nat {:trigger RecordOk(x, c, i)} | i < max :: RecordOk(x, c, i)
  }

  ghost predicate Indexed<K(!new), N, L>(max: nat, x: Index<K, N, L>, c: Cache<K>) {
    Wellformed(max, c) && Names(x, c) && Lists(x) && Orders(x, c) && Records(max, x, c)
  }

  ghost predicate SlotIs<K>(c: Cache<K>, n: K, idx: nat) {
    n in c.slot && c.slot[n] == idx
  }

  /** The list node of a live name stands where the name stands. */
  lemma {:induction false} OrderOf<K(!new), N, L>(max: nat, x: Index<K, N, L>, c: Cache<K>, n: K)
    requires Indexed(max, x, c) && n in c.live
    ensures n in x.entry && x.order[IndexOf(c.live, n)] == x.entry[n].list
  {
    var i := IndexOf(c.live, n);
    assert OrderOk(x, c, i) && NameOk(x, c, n) && ListOk(x, x.order[i]);
  }

  ghost function Moved<L>(s: seq<L>, i: nat): seq<L>
    requires i < |s|
  {
    s[..i] + s[i + 1..] + [s[i]]
  }

  lemma {:induction false} TouchWellformed<K(!new)>(max: nat, c: Cache<K>, n: K)
    requires Wellformed(max, c) && n in c.live
    ensures Wellformed(max, c.(live := Touch(c.live, n))) && |Touch(c.live, n)| == |c.live|
  {
    TouchLive(c.live, n);
  }

  lemma {:induction false} TouchOrders<K(!new), N, L>(x: Index<K, N, L>, c: Cache<K>, i: nat, c': Cache<K>)
    requires Orders(x, c) && i < |c.live| && c'.live == Moved(c.live, i)
    ensures Orders(x.(order := Moved(x.order, i)), c')
  {
    var x' := x.(order := Moved(x.order, i));
    forall j: nat ensures OrderOk(x', c', j) {
      assert OrderOk(x, c, if j < i then j else if j == |c.live| - 1 then i else j + 1);
    }
  }

  /** A use of a live name moves its list node to the end. */
  lemma {:induction false} TouchIndexed<K(!new), N, L>(max: nat, x: Index<K, N, L>, c: Cache<K>, n: K)
    requires Indexed(max, x, c) && n in c.live
    ensures IndexOf(c.live, n) < |x.order|
    ensures Indexed(max, x.(order := Moved(x.order, IndexOf(c.live, n))), c.(live := Touch(c.live, n)))
  {
    var i := IndexOf(c.live, n);
    var x', c' := x.(order := Moved(x.order, i)), c.(live := Touch(c.live, n));
    TouchWellformed(max, c, n);
    TouchOrders(x, c, i, c');
    forall m | m in c'.slot ensures NameOk(x', c', m) { assert NameOk(x, c, m); }
    forall l | l in x'.byList ensures ListOk(x', l) { assert ListOk(x, l); }
    forall j: nat | j < max ensures RecordOk(x', c', j) { assert RecordOk(x, c, j); }
  }

  /** One more entry in the tree and at the end of the list, one entry less, and a slot filled. */
  ghost function With<K, N, L>(x: Index<K, N, L>, e: Entry<K, N, L>): Index<K, N, L> {
    Index(x.entry[e.name := e], x.at[e.name := e.tree], x.byList[e.list := e], x.order + [e.list], x.records)
  }

  ghost function WithoutFirst<K, N, L>(x: Index<K, N, L>, out: Entry<K, N, L>): Index<K, N, L>
    requires x.order != []
  {
    Index(x.entry - {out.name}, x.at - {out.name}, x.byList - {out.list}, x.order[1..], x.records)
  }

  ghost function Stored<K, N, L>(x: Index<K, N, L>, e: Entry<K, N, L>): Index<K, N, L>
    requires e.idx < |x.records|
  {
    x.(records := x.records[e.idx := Some(e)])
  }

  // ---- A new entry in the next free slot ----

  lemma {:induction false} AddNames<K(!new), N, L>(x: Index<K, N, L>, c: Cache<K>, e: Entry<K, N, L>, c': Cache<K>)
    requires Names(x, c) && e.name !in x.entry && e.list !in x.byList && e.idx < |x.records| &&
             c'.slot == c.slot[e.name := e.idx]
    ensures Names(Stored(With(x, e), e), c')
  {
    var x' := Stored(With(x, e), e);
    forall m | m in c'.slot ensures NameOk(x', c', m) {
      assert m != e.name ==> NameOk(x, c, m);
    }
  }

  lemma {:induction false} AddLists<K(!new), N, L>(x: Index<K, N, L>, e: Entry<K, N, L>)
    requires Lists(x) && e.name !in x.entry && e.list !in x.byList && e.idx < |x.records|
    ensures Lists(Stored(With(x, e), e))
  {
    var x' := Stored(With(x, e), e);
    forall l | l in x'.byList ensures ListOk(x', l) {
      assert l != e.list ==> ListOk(x, l);
    }
  }

  lemma {:induction false} AddOrders<K(!new), N, L>(x: Index<K, N, L>, c: Cache<K>, e: Entry<K, N, L>, c': Cache<K>)
    requires Orders(x, c) && e.list !in x.byList && e.idx < |x.records| && c'.live == c.live + [e.name]
    ensures Orders(Stored(With(x, e), e), c')
  {
    var x' := Stored(With(x, e), e);
    forall j: nat ensures OrderOk(x', c', j) {
      assert j < |c.live| ==> OrderOk(x, c, j);
    }
  }

  lemma {:induction false} AddRecords<K(!new), N, L>(
      max: nat, x: Index<K, N, L>, c: Cache<K>, e: Entry<K, N, L>, c': Cache<K>)
    requires Records(max, x, c) && e.name !in x.entry && e.idx == |c.live| < max && c'.live == c.live + [e.name]
    ensures Records(max, Stored(With(x, e), e), c')
  {
    var x' := Stored(With(x, e), e);
    forall j: nat | j < max ensures RecordOk(x', c', j) {
      assert RecordOk(x, c, j);
    }
  }

  lemma {:induction false} AddIndexed<K(!new), N, L>(max: nat, x: Index<K, N, L>, c: Cache<K>, e: Entry<K, N, L>)
    requires Indexed(max, x, c) && |c.live| < max && e.idx == |c.live|
    requires e.name !in x.entry && e.list !in x.byList
    ensures var c' := Step(max, c, Find(e.name)).0;
            Indexed(max, Stored(With(x, e), e), c') && |c'.live| == |c.live| + 1 && SlotIs(c', e.name, e.idx)
  {
    var c' := Step(max, c, Find(e.name)).0;
    StepWellformed(max, c, Find(e.name));
    assert c' == Cache(c.live + [e.name], c.slot[e.name := e.idx]);
    AddNames(x, c, e, c');
    AddLists(x, e);
    AddOrders(x, c, e, c');
    AddRecords(max, x, c, e, c');
  }

  // ---- The least recently used entry is replaced by a new one in the same slot ----

  ghost function Replaced<K, N, L>(x: Index<K, N, L>, out: Entry<K, N, L>, e: Entry<K, N, L>): Index<K, N, L>
    requires x.order != [] && e.idx < |x.records|
  {
    Stored(WithoutFirst(With(x, e), out), e)
  }

  /** Both entries are known by their names and list nodes and share the slot. */
  ghost predicate Swaps<K, N, L>(x: Index<K, N, L>, out: Entry<K, N, L>, e: Entry<K, N, L>) {
    && x.order != [] && e.idx < |x.records| && e.idx == out.idx && e.name !in x.entry && e.list !in x.byList
    && x.order[0] == out.list && out.list in x.byList && x.byList[out.list] == out
    && out.name in x.entry && x.entry[out.name] == out
  }

  lemma {:induction false} ReplaceNames<K(!new), N, L>(
      x: Index<K, N, L>, c: Cache<K>, out: Entry<K, N, L>, e: Entry<K, N, L>, c': Cache<K>)
    requires Names(x, c) && Swaps(x, out, e) && c'.slot == (c.slot - {out.name})[e.name := e.idx]
    ensures Names(Replaced(x, out, e), c')
  {
    var x' := Replaced(x, out, e);
    forall m | m in c'.slot ensures NameOk(x', c', m) {
      assert m != e.name ==> NameOk(x, c, m);
    }
  }

  lemma {:induction false} ReplaceLists<K(!new), N, L>(x: Index<K, N, L>, out: Entry<K, N, L>, e: Entry<K, N, L>)
    requires Lists(x) && Swaps(x, out, e)
    ensures Lists(Replaced(x, out, e))
  {
    var x' := Replaced(x, out, e);
    forall l | l in x'.byList ensures ListOk(x', l) {
      assert l != e.list ==> ListOk(x, l);
    }
  }

  lemma {:induction false} ReplaceOrders<K(!new), N, L>(
      x: Index<K, N, L>, c: Cache<K>, out: Entry<K, N, L>, e: Entry<K, N, L>, c': Cache<K>)
    requires Orders(x, c) && Distinct(c.live) && Swaps(x, out, e) && c.live[0] == out.name &&
             c'.live == c.live[1..] + [e.name]
    ensures Orders(Replaced(x, out, e), c')
  {
    var x' := Replaced(x, out, e);
    forall j: nat ensures OrderOk(x', c', j) {
      assert OrderOk(x, c, j + 1);
    }
  }

  lemma {:induction false} ReplaceRecords<K(!new), N, L>(
      max: nat, x: Index<K, N, L>, c: Cache<K>, out: Entry<K, N, L>, e: Entry<K, N, L>, c': Cache<K>)
    requires Records(max, x, c) && Swaps(x, out, e) && |c'.live| == |c.live| == max
    ensures Records(max, Replaced(x, out, e), c')
  {
    var x' := Replaced(x, out, e);
    forall j: nat | j < max ensures RecordOk(x', c', j) {
      assert RecordOk(x, c, j);
    }
  }

  lemma {:induction false} FirstOut<K(!new), N, L>(max: nat, x: Index<K, N, L>, c: Cache<K>, e: Entry<K, N, L>)
    returns (out: Entry<K, N, L>)
    requires Indexed(max, x, c) && |c.live| == max > 0 && e.name !in x.entry && e.list !in x.byList
    requires x.order[0] in x.byList && e.idx == x.byList[x.order[0]].idx
    ensures out == x.byList[x.order[0]] && Swaps(x, out, e) && c.live[0] == out.name && out.name in c.slot &&
            c.slot[out.name] == e.idx
  {
    out := x.byList[x.order[0]];
    assert OrderOk(x, c, 0) && ListOk(x, x.order[0]) && NameOk(x, c, c.live[0]);
    assert out.idx < max;
  }

  lemma {:induction false} ReplaceIndexed<K(!new), N, L>(max: nat, x: Index<K, N, L>, c: Cache<K>, e: Entry<K, N, L>)
    requires Indexed(max, x, c) && |c.live| == max > 0
    requires e.name !in x.entry && e.list !in x.byList
    requires x.order[0] in x.byList && e.idx == x.byList[x.order[0]].idx
    ensures e.idx < max
    ensures var c' := Step(max, c, Find(e.name)).0;
            && Indexed(max, Stored(WithoutFirst(With(x, e), x.byList[x.order[0]]), e), c')
            && |c'.live| == |c.live| && SlotIs(c', e.name, e.idx)
  {
    var out := FirstOut(max, x, c, e);
    var c' := Step(max, c, Find(e.name)).0;
    StepWellformed(max, c, Find(e.name));
    assert c' == Cache(c.live[1..] + [e.name], (c.slot - {out.name})[e.name := e.idx]);
    ReplaceNames(x, c, out, e, c');
    ReplaceLists(x, out, e);
    ReplaceOrders(x, c, out, e, c');
    ReplaceRecords(max, x, c, out, e, c');
  }
}
