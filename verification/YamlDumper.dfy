/** The dumper: a document graph becomes events.  A first walk counts references and gives every node that
    is referenced twice an anchor; a second walk issues the events, with an alias for every meeting after
    the first. */
module YamlDumper {
  import opened Options
  import opened YamlEvents
  import opened YamlGraph
  import opened YamlNames

  datatype Info = Info(references: nat, anchor: nat, serialized: bool)

  /** The anchors table and last_anchor_id. */
  datatype Tally = Tally(infos: seq<Info>, last: nat)

  // ---- The first walk ----

  function Mark(t: Tally, i: nat): Tally
    requires 1 <= i <= |t.infos|
  {
    var info := t.infos[i - 1];
    if info.references == 1 then
      Tally(t.infos[i - 1 := info.(references := 2, anchor := t.last + 1)], t.last + 1)
    else
      t.(infos := t.infos[i - 1 := info.(references := info.references + 1)])
  }

  ghost predicate StepsWithin(steps: seq<Step>, n: nat) {
    forall k | 0 <= k < |steps| :: 1 <= steps[k].node <= n
  }

  ghost function MarkAll(t: Tally, steps: seq<Step>): (r: Tally)
    requires StepsWithin(steps, |t.infos|)
    ensures |r.infos| == |t.infos|
    decreases |steps|
  {
    if steps == [] then t
    else if steps[0].Leave? then MarkAll(t, steps[1..])
    else MarkAll(Mark(t, steps[0].node), steps[1..])
  }

  lemma {:induction false} MarkAppend(t: Tally, a: seq<Step>, b: seq<Step>)
    requires StepsWithin(a, |t.infos|) && StepsWithin(b, |t.infos|)
    ensures StepsWithin(a + b, |t.infos|) && MarkAll(t, a + b) == MarkAll(MarkAll(t, a), b)
    decreases |a|
  {
    if a == [] {
      assert a + b == b;
    } else {
      assert (a + b)[1..] == a[1..] + b;
      MarkAppend(if a[0].Leave? then t else Mark(t, a[0].node), a[1..], b);
    }
  }

  lemma {:induction false} WalkWithin(doc: Document, ord: seq<nat>, i: nat)
    requires InRange(doc) && Met(doc, ord) && 1 <= i <= |doc|
    ensures StepsWithin(Walk(doc, ord, i).steps, |doc|)
    decreases Unmet(doc, ord), 0
  {
    if i !in ord {
      MeetNew(doc, ord, i);
      WalkAllWithin(doc, ord + [i], Children(doc[i - 1]));
    }
  }

  lemma {:induction false} WalkAllWithin(doc: Document, ord: seq<nat>, s: seq<nat>)
    requires InRange(doc) && Met(doc, ord) && AllWithin(s, |doc|)
    ensures StepsWithin(WalkAll(doc, ord, s).steps, |doc|)
    decreases Unmet(doc, ord), 1 + |s|
  {
    if s != [] {
      var n := |s| - 1;
      var a := WalkAll(doc, ord, s[..n]);
      WalkAllWithin(doc, ord, s[..n]);
      assert Unmet(doc, a.ord) <= Unmet(doc, ord);
      WalkWithin(doc, a.ord, s[n]);
    }
  }

  /** Marking along a walk: the node itself, and then its children if it is met for the first time. */
  lemma {:induction false} MarkWalk(doc: Document, ord: seq<nat>, i: nat, t: Tally)
    requires InRange(doc) && Met(doc, ord) && 1 <= i <= |doc| == |t.infos|
    ensures StepsWithin(Walk(doc, ord, i).steps, |doc|)
    ensures i in ord ==> MarkAll(t, Walk(doc, ord, i).steps) == Mark(t, i)
    ensures i !in ord ==> StepsWithin(Inner(doc, ord, i).steps, |doc|)
    ensures i !in ord ==> MarkAll(t, Walk(doc, ord, i).steps) == MarkAll(Mark(t, i), Inner(doc, ord, i).steps)
  {
    WalkWithin(doc, ord, i);
    if i !in ord {
      var s := Inner(doc, ord, i).steps;
      MeetNew(doc, ord, i);
      WalkAllWithin(doc, ord + [i], Children(doc[i - 1]));
      var tail := if doc[i - 1].ScalarNode? then [] else [Leave(i)];
      assert [Enter(i)] + s + tail == [Enter(i)] + (s + tail);
      assert ([Enter(i)] + (s + tail))[1..] == s + tail;
      MarkAppend(Mark(t, i), s, tail);
    }
  }

  /** The table counts the meetings; exactly the nodes met more than once have anchors, all different. */
  ghost predicate Tallied(t: Tally, steps: seq<Step>) {
    && (forall k | 0 <= k < |t.infos| :: t.infos[k].references == Count(steps, k + 1))
    && (forall k | 0 <= k < |t.infos| ::
            (t.infos[k].anchor != 0 <==> t.infos[k].references >= 2) && t.infos[k].anchor <= t.last)
    && (forall k, l | 0 <= k < l < |t.infos| && t.infos[k].anchor != 0 :: t.infos[k].anchor != t.infos[l].anchor)
  }

  lemma {:induction false} TallyStep(t: Tally, steps: seq<Step>, s: Step)
    requires Tallied(t, steps) && 1 <= s.node <= |t.infos|
    ensures Tallied(if s.Leave? then t else Mark(t, s.node), steps + [s])
  {
    var t' := if s.Leave? then t else Mark(t, s.node);
    forall k | 0 <= k < |t.infos| ensures t'.infos[k].references == Count(steps + [s], k + 1) {
      CountAppend(steps, [s], k + 1);
    }
  }

  lemma {:induction false} TallyAll(t: Tally, before: seq<Step>, steps: seq<Step>)
    requires Tallied(t, before) && StepsWithin(steps, |t.infos|)
    ensures Tallied(MarkAll(t, steps), before + steps)
    decreases |steps|
  {
    if steps == [] {
      assert before + steps == before;
    } else {
      TallyStep(t, before, steps[0]);
      TallyAll(if steps[0].Leave? then t else Mark(t, steps[0].node), before + [steps[0]], steps[1..]);
      assert before + [steps[0]] + steps[1..] == before + steps;
    }
  }

  function Blank(n: nat): Tally {
    Tally(seq(n, _ => Info(0, 0, false)), 0)
  }

  /** The table after the first walk of a document. */
  ghost function Anchored(doc: Document): Tally
    requires InRange(doc) && doc != []
  {
    WalkWithin(doc, [], 1);
    MarkAll(Blank(|doc|), Walk(doc, [], 1).steps)
  }

  lemma {:induction false} AnchoredTallied(doc: Document)
    requires InRange(doc) && doc != []
    ensures |Anchored(doc).infos| == |doc| && Tallied(Anchored(doc), Walk(doc, [], 1).steps)
  {
    WalkWithin(doc, [], 1);
    TallyAll(Blank(|doc|), [], Walk(doc, [], 1).steps);
    assert [] + Walk(doc, [], 1).steps == Walk(doc, [], 1).steps;
  }

  // ---- The second walk ----

  function NameOf(id: nat): Option<string> {
    if id == 0 then None else Some(AnchorName(id))
  }

  function EventOf(doc: Document, ids: seq<nat>, s: Step): Event
    requires 1 <= s.node <= |doc| == |ids|
  {
    var id := ids[s.node - 1];
    match s
    case Enter(i) => (
      match doc[i - 1]
      case ScalarNode(tag, text, style) =>
        Scalar(NameOf(id), Some(tag), text, tag == DEFAULT_SCALAR_TAG, tag == DEFAULT_SCALAR_TAG, style)
      case SequenceNode(tag, _, style) => SequenceStart(NameOf(id), Some(tag), tag == DEFAULT_SEQUENCE_TAG, style)
      case MappingNode(tag, _, style) => MappingStart(NameOf(id), Some(tag), tag == DEFAULT_MAPPING_TAG, style))
    case Again(_) => Alias(AnchorName(id))
    case Leave(i) => if doc[i - 1].SequenceNode? then SequenceEnd else MappingEnd
  }

  ghost function Events(doc: Document, ids: seq<nat>, steps: seq<Step>): (r: seq<Event>)
    requires |doc| == |ids| && StepsWithin(steps, |doc|)
    ensures |r| == |steps|
    decreases |steps|
  {
    if steps == [] then [] else [EventOf(doc, ids, steps[0])] + Events(doc, ids, steps[1..])
  }

  lemma {:induction false} EventsAppend(doc: Document, ids: seq<nat>, a: seq<Step>, b: seq<Step>)
    requires |doc| == |ids| && StepsWithin(a, |doc|) && StepsWithin(b, |doc|)
    ensures StepsWithin(a + b, |doc|) && Events(doc, ids, a + b) == Events(doc, ids, a) + Events(doc, ids, b)
    decreases |a|
  {
    if a == [] {
      assert a + b == b;
    } else {
      assert (a + b)[1..] == a[1..] + b;
      EventsAppend(doc, ids, a[1..], b);
    }
  }

  /** Every node that the walk meets again has an anchor. */
  ghost predicate Named(ids: seq<nat>, ord: seq<nat>, steps: seq<Step>) {
    forall i {:trigger NamedAt(ids, ord, steps, i)} | 1 <= i <= |ids| :: NamedAt(ids, ord, steps, i)
  }

  ghost predicate NamedAt(ids: seq<nat>, ord: seq<nat>, steps: seq<Step>, i: nat)
    requires 1 <= i <= |ids|
  {
    (if i in ord then 1 else 0) + Count(steps, i) >= 2 ==> ids[i - 1] != 0
  }

  lemma {:induction false} NamedFirst(doc: Document, ids: seq<nat>, ord: seq<nat>, i: nat)
    requires InRange(doc) && Met(doc, ord) && 1 <= i <= |doc| && i !in ord && Named(ids, ord, Walk(doc, ord, i).steps)
    ensures Named(ids, ord + [i], Inner(doc, ord, i).steps)
  {
    var s := Inner(doc, ord, i).steps;
    var tail := if doc[i - 1].ScalarNode? then [] else [Leave(i)];
    forall j | 1 <= j <= |ids| ensures NamedAt(ids, ord + [i], s, j) {
      assert NamedAt(ids, ord, Walk(doc, ord, i).steps, j);
      CountAppend([Enter(i)] + s, tail, j);
      CountAppend([Enter(i)], s, j);
    }
  }

  lemma {:induction false} NamedNext(doc: Document, ids: seq<nat>, ord: seq<nat>, whole: seq<nat>, s: seq<nat>, x: nat)
    requires InRange(doc) && Met(doc, ord) && AllWithin(whole, |doc|) && s + [x] <= whole
    requires Named(ids, ord, WalkAll(doc, ord, whole).steps)
    ensures AllWithin(s, |doc|) && 1 <= x <= |doc|
    ensures var a := WalkAll(doc, ord, s); Named(ids, a.ord, Walk(doc, a.ord, x).steps)
  {
    StepsGrow(doc, ord, s + [x], whole);
    assert (s + [x])[..|s|] == s && (s + [x])[|s|] == x;
    var a := WalkAll(doc, ord, s);
    var b := Walk(doc, a.ord, x);
    forall i | 1 <= i <= |ids| ensures NamedAt(ids, a.ord, b.steps, i) {
      assert NamedAt(ids, ord, WalkAll(doc, ord, whole).steps, i);
      WalkAllMeets(doc, ord, s, i);
      CountAppend(a.steps, b.steps, i);
      CountGrows(a.steps + b.steps, WalkAll(doc, ord, whole).steps, i);
    }
  }

  ghost function Ids(t: Tally): (ids: seq<nat>)
    ensures |ids| == |t.infos| && forall k | 0 <= k < |ids| :: ids[k] == t.infos[k].anchor
  {
    seq(|t.infos|, k requires 0 <= k < |t.infos| => t.infos[k].anchor)
  }

  /** All events of a document, between DOCUMENT-START and DOCUMENT-END. */
  ghost function Dumped(doc: Document): seq<Event>
    requires InRange(doc) && doc != []
  {
    WalkWithin(doc, [], 1);
    Events(doc, Ids(Anchored(doc)), Walk(doc, [], 1).steps)
  }

  class Dumper {
    const doc: Document
    const anchors: array<Info>
    var lastAnchorId: nat
    var isOpen: bool
    var isClosed: bool
    var out: seq<Event>
    ghost var ord: seq<nat>        // the nodes met on the present walk

    constructor (doc: Document)
      requires InRange(doc)
      ensures this.doc == doc && fresh(anchors) && !isOpen && !isClosed && out == [] && ord == []
      ensures Table() && TallyNow() == Blank(|doc|)
    {
      this.doc, isOpen, isClosed, out, ord, lastAnchorId := doc, false, false, [], [], 0;
      anchors := new Info[|doc|](_ => Info(0, 0, false));
      new;
      assert anchors[..] == Blank(|doc|).infos;
    }

    ghost function TallyNow(): Tally
      reads this`lastAnchorId, anchors
    {
      Tally(anchors[..], lastAnchorId)
    }

    ghost predicate Table()
      reads this`ord
    {
      anchors.Length == |doc| && InRange(doc) && Met(doc, ord)
    }

    /** On the first walk: the nodes met are those with references. */
    ghost predicate Counting()
      reads this`ord, anchors
    {
      Table() && forall k | 0 <= k < |doc| :: anchors[k].references > 0 <==> k + 1 in ord
    }

    /** The table is that of `t` with the children `s` walked from `o` on. */
    ghost predicate Marked(o: seq<nat>, t: Tally, s: seq<nat>)
      reads this`lastAnchorId, this`ord, anchors
    {
      && Counting() && Met(doc, o) && AllWithin(s, |doc|) && |t.infos| == |doc|
      && ord == WalkAll(doc, o, s).ord && StepsWithin(WalkAll(doc, o, s).steps, |doc|)
      && TallyNow() == MarkAll(t, WalkAll(doc, o, s).steps)
    }

    /** anchor_node */
    method AnchorNode(i: nat)
      requires Counting() && 1 <= i <= |doc|
      modifies this`lastAnchorId, this`ord, anchors
      ensures Counting() && ord == Walk(doc, old(ord), i).ord
      ensures StepsWithin(Walk(doc, old(ord), i).steps, |doc|)
      ensures TallyNow() == MarkAll(old(TallyNow()), Walk(doc, old(ord), i).steps)
      decreases Unmet(doc, ord), 0
    {
      MarkWalk(doc, ord, i, TallyNow());
      var first := Note(i);
      if first {
        MeetNew(doc, old(ord), i);
        match doc[i - 1] {
          case ScalarNode(_, _, _) =>
          case SequenceNode(_, items, _) => AnchorItems(items);
          case MappingNode(_, pairs, _) => AnchorPairs(pairs);
        }
      }
    }

    /** One more reference; the second one gives the node its anchor. */
    method Note(i: nat) returns (first: bool)
      requires Counting() && 1 <= i <= |doc|
      modifies this`lastAnchorId, this`ord, anchors
      ensures Counting() && TallyNow() == Mark(old(TallyNow()), i)
      ensures first == (i !in old(ord)) && ord == if first then old(ord) + [i] else old(ord)
    {
      var info := anchors[i - 1];
      anchors[i - 1] := info.(references := info.references + 1);
      first := anchors[i - 1].references == 1;
      if first {
        MeetNew(doc, ord, i);
        ord := ord + [i];
      } else if anchors[i - 1].references == 2 {
        lastAnchorId := lastAnchorId + 1;
        anchors[i - 1] := anchors[i - 1].(anchor := lastAnchorId);
      }
    }

    method AnchorNext(x: nat, ghost o: seq<nat>, ghost t: Tally, ghost s: seq<nat>)
      requires Marked(o, t, s) && 1 <= x <= |doc|
      modifies this`lastAnchorId, this`ord, anchors
      ensures Marked(o, t, s + [x])
      decreases Unmet(doc, ord), 1
    {
      ghost var a := WalkAll(doc, o, s);
      AnchorNode(x);
      assert (s + [x])[..|s|] == s;
      MarkAppend(t, a.steps, Walk(doc, a.ord, x).steps);
    }

    method AnchorItems(items: seq<nat>)
      requires Counting() && AllWithin(items, |doc|)
      modifies this`lastAnchorId, this`ord, anchors
      ensures Marked(old(ord), old(TallyNow()), items)
      decreases Unmet(doc, ord), 2
    {
      for k := 0 to |items|
        invariant Marked(old(ord), old(TallyNow()), items[..k])
      {
        assert items[..k + 1] == items[..k] + [items[k]];
        MetGrows(doc, old(ord), items[..k]);
        AnchorNext(items[k], old(ord), old(TallyNow()), items[..k]);
      }
      assert items[..|items|] == items;
    }

    method AnchorPair(pair: Pair, ghost o: seq<nat>, ghost t: Tally, ghost s: seq<nat>)
      requires Marked(o, t, s) && AllWithin([pair.key, pair.value], |doc|)
      modifies this`lastAnchorId, this`ord, anchors
      ensures Marked(o, t, s + [pair.key, pair.value])
      decreases Unmet(doc, ord), 2
    {
      assert pair.key == [pair.key, pair.value][0] && pair.value == [pair.key, pair.value][1];
      AnchorNext(pair.key, o, t, s);
      WalkAllGrows(doc, o, s, pair.key);
      AnchorNext(pair.value, o, t, s + [pair.key]);
      Twice(s, pair.key, pair.value);
    }

    method AnchorPairs(pairs: seq<Pair>)
      requires Counting() && AllWithin(Flatten(pairs), |doc|)
      modifies this`lastAnchorId, this`ord, anchors
      ensures Marked(old(ord), old(TallyNow()), Flatten(pairs))
      decreases Unmet(doc, ord), 3
    {
      for k := 0 to |pairs|
        invariant Marked(old(ord), old(TallyNow()), Flatten(pairs[..k]))
      {
        FlattenNext(pairs, k);
        PairWithin(pairs, k, |doc|);
        MetGrows(doc, old(ord), Flatten(pairs[..k]));
        AnchorPair(pairs[k], old(ord), old(TallyNow()), Flatten(pairs[..k]));
      }
      assert pairs[..|pairs|] == pairs;
    }

    /** On the second walk: the nodes met are those already serialized. */
    ghost predicate Serializing(ids: seq<nat>)
      reads this`ord, anchors
    {
      && Table() && |ids| == |doc|
      && forall k | 0 <= k < |doc| :: anchors[k].anchor == ids[k] && (anchors[k].serialized <==> k + 1 in ord)
    }

    /** The events of the children `s`, walked from `o` on, have been issued after `w`. */
    ghost predicate Issued(ids: seq<nat>, o: seq<nat>, w: seq<Event>, s: seq<nat>)
      reads this`ord, this`out, anchors
    {
      && Serializing(ids) && Met(doc, o) && AllWithin(s, |doc|)
      && ord == WalkAll(doc, o, s).ord && StepsWithin(WalkAll(doc, o, s).steps, |doc|)
      && out == w + Events(doc, ids, WalkAll(doc, o, s).steps)
    }

    /** dump_node: no alias is ever issued without an anchor. */
    method DumpNode(i: nat, ghost ids: seq<nat>)
      requires Serializing(ids) && 1 <= i <= |doc| && Named(ids, ord, Walk(doc, ord, i).steps)
      modifies this`ord, this`out, anchors
      ensures Serializing(ids) && ord == Walk(doc, old(ord), i).ord
      ensures StepsWithin(Walk(doc, old(ord), i).steps, |doc|)
      ensures out == old(out) + Events(doc, ids, Walk(doc, old(ord), i).steps)
      decreases Unmet(doc, ord), 0
    {
      var anchor := NameOf(anchors[i - 1].anchor);
      if anchors[i - 1].serialized {
        AliasNamed(doc, ids, ord, i);
        DumpAlias(anchor);
      } else {
        NamedFirst(doc, ids, ord, i);
        EventsWalk(doc, ids, ord, i, out);
        MeetNew(doc, ord, i);
        Serialize(i, ids);
        match doc[i - 1] {
          case ScalarNode(_, _, _) => DumpScalar(i, anchor, ids);
          case SequenceNode(_, _, _) => DumpSequence(i, anchor, ids);
          case MappingNode(_, _, _) => DumpMapping(i, anchor, ids);
        }
      }
    }

    method Serialize(i: nat, ghost ids: seq<nat>)
      requires Serializing(ids) && 1 <= i <= |doc| && i !in ord
      modifies this`ord, anchors
      ensures Serializing(ids) && ord == old(ord) + [i]
    {
      MeetNew(doc, ord, i);
      anchors[i - 1] := anchors[i - 1].(serialized := true);
      ord := ord + [i];
    }

    method DumpScalar(i: nat, anchor: Option<string>, ghost ids: seq<nat>)
      requires 1 <= i <= |doc| == |ids| && doc[i - 1].ScalarNode? && anchor == NameOf(ids[i - 1])
      modifies this`out
      ensures out == old(out) + [EventOf(doc, ids, Enter(i))]
    {
      var node := doc[i - 1];
      var implicit := node.tag == DEFAULT_SCALAR_TAG;
      out := out + [Scalar(anchor, Some(node.tag), node.text, implicit, implicit, node.style)];
    }

    method IssueStart(i: nat, anchor: Option<string>, ghost ids: seq<nat>)
      requires 1 <= i <= |doc| == |ids| && !doc[i - 1].ScalarNode? && anchor == NameOf(ids[i - 1])
      modifies this`out
      ensures out == old(out) + [EventOf(doc, ids, Enter(i))]
    {
      var node := doc[i - 1];
      if node.SequenceNode? {
        out := out + [SequenceStart(anchor, Some(node.tag), node.tag == DEFAULT_SEQUENCE_TAG, node.style)];
      } else {
        out := out + [MappingStart(anchor, Some(node.tag), node.tag == DEFAULT_MAPPING_TAG, node.style)];
      }
    }

    method IssueEnd(i: nat, ghost ids: seq<nat>)
      requires 1 <= i <= |doc| == |ids| && !doc[i - 1].ScalarNode?
      modifies this`out
      ensures out == old(out) + [EventOf(doc, ids, Leave(i))]
    {
      out := out + [if doc[i - 1].SequenceNode? then SequenceEnd else MappingEnd];
    }

    /** The events of a collection have been issued after `w`. */
    ghost predicate Collected(i: nat, ids: seq<nat>, o: seq<nat>, w: seq<Event>)
      requires 1 <= i <= |doc|
      reads this`ord, this`out, anchors
    {
      && Serializing(ids) && Met(doc, o) && ord == WalkAll(doc, o, Children(doc[i - 1])).ord
      && var steps := WalkAll(doc, o, Children(doc[i - 1])).steps;
      && StepsWithin(steps, |doc|)
      && out == w + [EventOf(doc, ids, Enter(i))] + Events(doc, ids, steps) + [EventOf(doc, ids, Leave(i))]
    }

    method DumpSequence(i: nat, anchor: Option<string>, ghost ids: seq<nat>)
      requires Serializing(ids) && 1 <= i <= |doc| && doc[i - 1].SequenceNode? && anchor == NameOf(ids[i - 1])
      requires Named(ids, ord, WalkAll(doc, ord, Children(doc[i - 1])).steps)
      modifies this`ord, this`out, anchors
      ensures Collected(i, ids, old(ord), old(out))
      decreases Unmet(doc, ord), 3
    {
      IssueStart(i, anchor, ids);
      DumpItems(doc[i - 1].items, ids);
      IssueEnd(i, ids);
    }

    method DumpMapping(i: nat, anchor: Option<string>, ghost ids: seq<nat>)
      requires Serializing(ids) && 1 <= i <= |doc| && doc[i - 1].MappingNode? && anchor == NameOf(ids[i - 1])
      requires Named(ids, ord, WalkAll(doc, ord, Children(doc[i - 1])).steps)
      modifies this`ord, this`out, anchors
      ensures Collected(i, ids, old(ord), old(out))
      decreases Unmet(doc, ord), 4
    {
      IssueStart(i, anchor, ids);
      DumpPairs(doc[i - 1].pairs, ids);
      IssueEnd(i, ids);
    }

    method DumpAlias(anchor: Option<string>)
      requires anchor.Some?
      modifies this`out
      ensures out == old(out) + [Alias(anchor.value)]
    {
      out := out + [Alias(anchor.value)];
    }

    method DumpNext(x: nat, ghost ids: seq<nat>, ghost o: seq<nat>, ghost w: seq<Event>, ghost whole: seq<nat>,
                    ghost s: seq<nat>)
      requires Issued(ids, o, w, s) && AllWithin(whole, |doc|) && s + [x] <= whole
      requires Named(ids, o, WalkAll(doc, o, whole).steps)
      modifies this`ord, this`out, anchors
      ensures Issued(ids, o, w, s + [x])
      decreases Unmet(doc, ord), 1
    {
      NamedNext(doc, ids, o, whole, s, x);
      EventsNext(doc, ids, o, s, x, w);
      DumpNode(x, ids);
    }

    method DumpItems(items: seq<nat>, ghost ids: seq<nat>)
      requires Serializing(ids) && AllWithin(items, |doc|) && Named(ids, ord, WalkAll(doc, ord, items).steps)
      modifies this`ord, this`out, anchors
      ensures Issued(ids, old(ord), old(out), items)
      decreases Unmet(doc, ord), 2
    {
      for k := 0 to |items|
        invariant Issued(ids, old(ord), old(out), items[..k])
      {
        assert items[..k + 1] == items[..k] + [items[k]];
        MetGrows(doc, old(ord), items[..k]);
        DumpNext(items[k], ids, old(ord), old(out), items, items[..k]);
      }
      assert items[..|items|] == items;
    }

    method DumpPair(pair: Pair, ghost ids: seq<nat>, ghost o: seq<nat>, ghost w: seq<Event>, ghost whole: seq<nat>,
                    ghost s: seq<nat>)
      requires Issued(ids, o, w, s) && AllWithin(whole, |doc|) && s + [pair.key, pair.value] <= whole
      requires Named(ids, o, WalkAll(doc, o, whole).steps)
      modifies this`ord, this`out, anchors
      ensures Issued(ids, o, w, s + [pair.key, pair.value])
      decreases Unmet(doc, ord), 2
    {
      Twice(s, pair.key, pair.value);
      assert s + [pair.key] <= whole;
      DumpNext(pair.key, ids, o, w, whole, s);
      WalkAllGrows(doc, o, s, pair.key);
      DumpNext(pair.value, ids, o, w, whole, s + [pair.key]);
    }

    method DumpPairs(pairs: seq<Pair>, ghost ids: seq<nat>)
      requires Serializing(ids) && AllWithin(Flatten(pairs), |doc|) &&
               Named(ids, ord, WalkAll(doc, ord, Flatten(pairs)).steps)
      modifies this`ord, this`out, anchors
      ensures Issued(ids, old(ord), old(out), Flatten(pairs))
      decreases Unmet(doc, ord), 3
    {
      for k := 0 to |pairs|
        invariant Issued(ids, old(ord), old(out), Flatten(pairs[..k]))
      {
        FlattenNext(pairs, k);
        FlattenPrefix(pairs, k + 1);
        MetGrows(doc, old(ord), Flatten(pairs[..k]));
        DumpPair(pairs[k], ids, old(ord), old(out), Flatten(pairs), Flatten(pairs[..k]));
      }
      assert pairs[..|pairs|] == pairs;
    }

    /** The first walk leaves exactly the nodes to be met again with anchors, and nothing serialized. */
    method AnchorDocument() returns (ghost ids: seq<nat>)
      requires Table() && TallyNow() == Blank(|doc|) && ord == [] && doc != []
      modifies this`lastAnchorId, this`ord, anchors
      ensures ids == Ids(Anchored(doc)) && ord == [] && Serializing(ids) && Named(ids, [], Walk(doc, [], 1).steps)
    {
      ghost var blank := TallyNow();
      AnchorNode(1);
      ids := Ids(Anchored(doc));
      NothingSerialized(blank, Walk(doc, [], 1).steps);
      AnchoredNamed(doc);
      ord := [];
    }

    method Open()
      modifies this`isOpen, this`out
      ensures isOpen && out == old(out) + (if old(isOpen) then [] else [StreamStart])
    {
      if !isOpen {
        out := out + [StreamStart];
        isOpen := true;
      }
    }

    /** dump: a document with nodes becomes one document of the stream, an empty one closes the stream. */
    method Dump(startImplicit: bool, endImplicit: bool)
      requires Table() && TallyNow() == Blank(|doc|) && ord == []
      modifies this`lastAnchorId, this`isOpen, this`isClosed, this`out, this`ord, anchors
      ensures doc != [] ==> out == old(out) + (if old(isOpen) then [] else [StreamStart])
                                   + [DocumentStart(startImplicit)] + Dumped(doc) + [DocumentEnd(endImplicit)]
      ensures doc == [] ==> isClosed && out == old(out) + (if old(isOpen) then [] else [StreamStart])
                                             + (if old(isClosed) then [] else [StreamEnd])
    {
      Open();
      if doc == [] {
        if !isClosed {
          out := out + [StreamEnd];
          isClosed := true;
        }
        return;
      }
      ghost var ids := AnchorDocument();
      out := out + [DocumentStart(startImplicit)];
      DumpNode(1, ids);
      out := out + [DocumentEnd(endImplicit)];
    }
  }

  lemma {:induction false} NothingSerialized(t: Tally, steps: seq<Step>)
    requires StepsWithin(steps, |t.infos|) && forall k | 0 <= k < |t.infos| :: !t.infos[k].serialized
    ensures forall k | 0 <= k < |t.infos| :: !MarkAll(t, steps).infos[k].serialized
    decreases |steps|
  {
    if steps != [] {
      NothingSerialized(if steps[0].Leave? then t else Mark(t, steps[0].node), steps[1..]);
    }
  }

  lemma {:induction false} AnchoredNamed(doc: Document)
    requires InRange(doc) && doc != []
    ensures Named(Ids(Anchored(doc)), [], Walk(doc, [], 1).steps)
  {
    AnchoredTallied(doc);
    var ids := Ids(Anchored(doc));
    forall i | 1 <= i <= |ids| ensures NamedAt(ids, [], Walk(doc, [], 1).steps, i) {
      assert Anchored(doc).infos[i - 1].references == Count(Walk(doc, [], 1).steps, i - 1 + 1);
    }
  }

  /** A node met again has an anchor, and its only event is the alias. */
  lemma {:induction false} AliasNamed(doc: Document, ids: seq<nat>, ord: seq<nat>, i: nat)
    requires InRange(doc) && Met(doc, ord) && 1 <= i <= |doc| == |ids| && i in ord
    requires Named(ids, ord, Walk(doc, ord, i).steps)
    ensures ids[i - 1] != 0 && StepsWithin(Walk(doc, ord, i).steps, |doc|)
    ensures Events(doc, ids, Walk(doc, ord, i).steps) == [EventOf(doc, ids, Again(i))]
  {
    var s := Walk(doc, ord, i).steps;
    assert s == [Again(i)];
    assert NamedAt(ids, ord, s, i);
    assert Count(s, i) == Meets(s[0], i) + Count(s[1..], i);
    EventsOne(doc, ids, Again(i));
  }

  lemma {:induction false} EventsNext(doc: Document, ids: seq<nat>, ord: seq<nat>, s: seq<nat>, x: nat, w: seq<Event>)
    requires InRange(doc) && Met(doc, ord) && AllWithin(s, |doc|) && 1 <= x <= |doc| == |ids|
    ensures var a := WalkAll(doc, ord, s); var b := Walk(doc, a.ord, x);
      && AllWithin(s + [x], |doc|)
      && var c := WalkAll(doc, ord, s + [x]);
      && c.ord == b.ord && StepsWithin(a.steps, |doc|) && StepsWithin(b.steps, |doc|) && StepsWithin(c.steps, |doc|)
      && w + Events(doc, ids, c.steps) == w + Events(doc, ids, a.steps) + Events(doc, ids, b.steps)
  {
    var a := WalkAll(doc, ord, s);
    var b := Walk(doc, a.ord, x);
    WalkAllWithin(doc, ord, s);
    WalkWithin(doc, a.ord, x);
    assert (s + [x])[..|s|] == s;
    EventsAppend(doc, ids, a.steps, b.steps);
    Associates(w, Events(doc, ids, a.steps), Events(doc, ids, b.steps));
  }

  lemma {:induction false} Associates(w: seq<Event>, a: seq<Event>, b: seq<Event>)
    ensures w + (a + b) == w + a + b
  {}

  /** The events of a first meeting: the start, those of the children, and the end. */
  lemma {:induction false} EventsWalk(doc: Document, ids: seq<nat>, ord: seq<nat>, i: nat, w: seq<Event>)
    requires InRange(doc) && Met(doc, ord) && 1 <= i <= |doc| == |ids| && i !in ord
    ensures var s := Inner(doc, ord, i).steps;
      && StepsWithin(s, |doc|) && StepsWithin(Walk(doc, ord, i).steps, |doc|)
      && var start := w + [EventOf(doc, ids, Enter(i))];
         w + Events(doc, ids, Walk(doc, ord, i).steps) ==
         if doc[i - 1].ScalarNode? then start else start + Events(doc, ids, s) + [EventOf(doc, ids, Leave(i))]
  {
    WalkWithin(doc, ord, i);
    MeetNew(doc, ord, i);
    WalkAllWithin(doc, ord + [i], Children(doc[i - 1]));
    var s := Inner(doc, ord, i).steps;
    if doc[i - 1].ScalarNode? {
      assert Walk(doc, ord, i).steps == [Enter(i)];
      EventsOne(doc, ids, Enter(i));
    } else {
      EventsAround(doc, ids, Enter(i), s, Leave(i), w);
    }
  }

  lemma {:induction false} EventsOne(doc: Document, ids: seq<nat>, s: Step)
    requires 1 <= s.node <= |doc| == |ids|
    ensures Events(doc, ids, [s]) == [EventOf(doc, ids, s)]
  {
    assert [s][1..] == [];
  }

  lemma {:induction false} EventsAround(doc: Document, ids: seq<nat>, a: Step, s: seq<Step>, b: Step, w: seq<Event>)
    requires |doc| == |ids| && StepsWithin([a], |doc|) && StepsWithin(s, |doc|) && StepsWithin([b], |doc|)
    requires 1 <= a.node <= |doc| && 1 <= b.node <= |doc|
    ensures StepsWithin([a] + s + [b], |doc|)
    ensures Events(doc, ids, [a] + s + [b]) == [EventOf(doc, ids, a)] + Events(doc, ids, s) + [EventOf(doc, ids, b)]
    ensures w + Events(doc, ids, [a] + s + [b]) ==
            w + [EventOf(doc, ids, a)] + Events(doc, ids, s) + [EventOf(doc, ids, b)]
  {
    EventsAppend(doc, ids, [a] + s, [b]);
    EventsAppend(doc, ids, [a], s);
    EventsOne(doc, ids, a);
    EventsOne(doc, ids, b);
    var ea, es, eb := [EventOf(doc, ids, a)], Events(doc, ids, s), [EventOf(doc, ids, b)];
    assert w + (ea + es + eb) == w + ea + es + eb;
  }

  lemma {:induction false} WalkAllGrows(doc: Document, ord: seq<nat>, s: seq<nat>, x: nat)
    requires InRange(doc) && Met(doc, ord) && AllWithin(s, |doc|) && 1 <= x <= |doc|
    ensures AllWithin(s + [x], |doc|)
    ensures Unmet(doc, WalkAll(doc, ord, s + [x]).ord) <= Unmet(doc, WalkAll(doc, ord, s).ord)
  {
    assert (s + [x])[..|s|] == s;
  }

  lemma {:induction false} MetGrows(doc: Document, ord: seq<nat>, s: seq<nat>)
    requires InRange(doc) && Met(doc, ord) && AllWithin(s, |doc|)
    ensures Unmet(doc, WalkAll(doc, ord, s).ord) <= Unmet(doc, ord)
  {}

  lemma {:induction false} LastTwo(f: seq<nat>, a: nat, b: nat, whole: seq<nat>, n: nat)
    requires f + [a, b] <= whole && AllWithin(whole, n)
    ensures AllWithin([a, b], n)
  {
    assert whole[|f|] == (f + [a, b])[|f|] && whole[|f| + 1] == (f + [a, b])[|f| + 1];
  }

  lemma {:induction false} FlattenSnoc(pairs: seq<Pair>, p: Pair)
    ensures Flatten(pairs + [p]) == Flatten(pairs) + [p.key, p.value]
  {
    assert (pairs + [p])[..|pairs|] == pairs;
  }

  lemma {:induction false} Twice(f: seq<nat>, a: nat, b: nat)
    ensures f + [a, b] == f + [a] + [b]
  {}

  lemma {:induction false} FlattenNext(pairs: seq<Pair>, k: nat)
    requires k < |pairs|
    ensures Flatten(pairs[..k + 1]) == Flatten(pairs[..k]) + [pairs[k].key, pairs[k].value]
  {
    assert pairs[..k + 1] == pairs[..k] + [pairs[k]];
    FlattenSnoc(pairs[..k], pairs[k]);
  }

  lemma {:induction false} PairWithin(pairs: seq<Pair>, k: nat, n: nat)
    requires k < |pairs| && AllWithin(Flatten(pairs), n)
    ensures AllWithin([pairs[k].key, pairs[k].value], n)
  {
    FlattenNext(pairs, k);
    FlattenPrefix(pairs, k + 1);
    LastTwo(Flatten(pairs[..k]), pairs[k].key, pairs[k].value, Flatten(pairs), n);
  }

  lemma {:induction false} FlattenPrefix(pairs: seq<Pair>, k: nat)
    requires k <= |pairs|
    ensures Flatten(pairs[..k]) <= Flatten(pairs)
    decreases |pairs|
  {
    if k == |pairs| {
      assert pairs[..k] == pairs;
    } else {
      var init := pairs[..|pairs| - 1];
      FlattenPrefix(init, k);
      assert init[..k] == pairs[..k];
    }
  }
}
