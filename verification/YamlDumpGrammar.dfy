/** What the dumper issues for a document is a node of the event grammar. */
module YamlDumpGrammar {
  import opened Options
  import opened YamlEvents
  import opened YamlGraph
  import opened YamlGrammar
  import D = YamlDumper
  import T = YamlTrees

  lemma {:induction false} FlattenEven(pairs: seq<Pair>)
    ensures |Flatten(pairs)| % 2 == 0
    decreases |pairs|
  {
    if pairs != [] {
      FlattenEven(pairs[..|pairs| - 1]);
    }
  }

  /** One meeting with a node is one node of the grammar. */
  lemma {:induction false} WalkFollows(doc: Document, ids: seq<nat>, ord: seq<nat>, i: nat, p: Place)
    requires InRange(doc) && Met(doc, ord) && 1 <= i <= |doc| == |ids| && WantsNode(p)
    ensures D.StepsWithin(Walk(doc, ord, i).steps, |doc|)
    ensures Follow(p, D.Events(doc, ids, Walk(doc, ord, i).steps)) == Some(Open(Beyond(p)))
    decreases Unmet(doc, ord), 0
  {
    D.WalkWithin(doc, ord, i);
    if i in ord {
      AgainFollows(doc, ids, ord, i, p);
    } else if doc[i - 1].ScalarNode? {
      WalkScalar(doc, ord, i);
      D.EventsOne(doc, ids, Enter(i));
      T.FollowOne(p, D.EventOf(doc, ids, Enter(i)));
    } else {
      MeetNew(doc, ord, i);
      var start := D.EventOf(doc, ids, Enter(i));
      InnerFollows(doc, ids, ord + [i], Children(doc[i - 1]), start, Beyond(p));
      CollectionFollows(doc, ids, ord, i, p);
    }
  }

  lemma {:induction false} AgainFollows(doc: Document, ids: seq<nat>, ord: seq<nat>, i: nat, p: Place)
    requires InRange(doc) && Met(doc, ord) && 1 <= i <= |doc| == |ids| && WantsNode(p) && i in ord
    ensures D.StepsWithin(Walk(doc, ord, i).steps, |doc|)
    ensures Follow(p, D.Events(doc, ids, Walk(doc, ord, i).steps)) == Some(Open(Beyond(p)))
  {
    assert Walk(doc, ord, i).steps == [Again(i)];
    D.EventsOne(doc, ids, Again(i));
    T.FollowOne(p, D.EventOf(doc, ids, Again(i)));
  }

  lemma {:induction false} CollectionFrame(doc: Document, ids: seq<nat>, i: nat)
    requires 1 <= i <= |doc| == |ids| && !doc[i - 1].ScalarNode?
    ensures var start := D.EventOf(doc, ids, Enter(i));
      && T.IsStart(start) && T.FrameAfter(start, |Children(doc[i - 1])|) == T.FirstFrame(start)
      && D.EventOf(doc, ids, Leave(i)) == T.EndOf(start)
  {
    if doc[i - 1].MappingNode? {
      FlattenEven(doc[i - 1].pairs);
    }
  }

  lemma {:induction false} CollectionSteps(doc: Document, ord: seq<nat>, i: nat)
    requires InRange(doc) && Met(doc, ord) && 1 <= i <= |doc| && i !in ord && !doc[i - 1].ScalarNode?
    ensures Walk(doc, ord, i).steps == [Enter(i)] + Inner(doc, ord, i).steps + [Leave(i)]
  {}

  lemma {:induction false} CollectionEvents(doc: Document, ids: seq<nat>, ord: seq<nat>, i: nat)
    returns (start: Event, body: seq<Event>)
    requires InRange(doc) && Met(doc, ord) && 1 <= i <= |doc| == |ids| && i !in ord && !doc[i - 1].ScalarNode?
    requires D.StepsWithin(Inner(doc, ord, i).steps, |doc|)
    ensures start == D.EventOf(doc, ids, Enter(i)) && body == D.Events(doc, ids, Inner(doc, ord, i).steps)
    ensures T.IsStart(start) && T.FrameAfter(start, |Children(doc[i - 1])|) == T.FirstFrame(start)
    ensures D.StepsWithin(Walk(doc, ord, i).steps, |doc|)
    ensures D.Events(doc, ids, Walk(doc, ord, i).steps) == [start] + body + [T.EndOf(start)]
  {
    start, body := D.EventOf(doc, ids, Enter(i)), D.Events(doc, ids, Inner(doc, ord, i).steps);
    CollectionFrame(doc, ids, i);
    CollectionSteps(doc, ord, i);
    D.EventsAround(doc, ids, Enter(i), Inner(doc, ord, i).steps, Leave(i), []);
  }

  lemma {:induction false} CollectionFollows(doc: Document, ids: seq<nat>, ord: seq<nat>, i: nat, p: Place)
    requires InRange(doc) && Met(doc, ord) && 1 <= i <= |doc| == |ids| && WantsNode(p) && i !in ord &&
             !doc[i - 1].ScalarNode?
    requires D.StepsWithin(Inner(doc, ord, i).steps, |doc|)
    requires var start := D.EventOf(doc, ids, Enter(i));
      Follow(Inside(Beyond(p) + [T.FirstFrame(start)]), D.Events(doc, ids, Inner(doc, ord, i).steps))
      == Some(Inside(Beyond(p) + [T.FrameAfter(start, |Children(doc[i - 1])|)]))
    ensures D.StepsWithin(Walk(doc, ord, i).steps, |doc|)
    ensures Follow(p, D.Events(doc, ids, Walk(doc, ord, i).steps)) == Some(Open(Beyond(p)))
  {
    var start, body := CollectionEvents(doc, ids, ord, i);
    T.BranchFollows(p, start, body);
  }

  lemma {:induction false} InnerFollows(doc: Document, ids: seq<nat>, ord: seq<nat>, s: seq<nat>, start: Event,
                                        base: seq<Frame>)
    requires InRange(doc) && Met(doc, ord) && AllWithin(s, |doc|) && |doc| == |ids| && T.IsStart(start)
    ensures D.StepsWithin(WalkAll(doc, ord, s).steps, |doc|)
    ensures Follow(Inside(base + [T.FirstFrame(start)]), D.Events(doc, ids, WalkAll(doc, ord, s).steps))
            == Some(Inside(base + [T.FrameAfter(start, |s|)]))
    decreases Unmet(doc, ord), 1 + |s|
  {
    D.WalkAllWithin(doc, ord, s);
    if s != [] {
      var n := |s| - 1;
      var a := WalkAll(doc, ord, s[..n]);
      InnerFollows(doc, ids, ord, s[..n], start, base);
      D.MetGrows(doc, ord, s[..n]);
      var q := Inside(base + [T.FrameAfter(start, n)]);
      WalkFollows(doc, ids, a.ord, s[n], q);
      T.NextFrame(base, start, n);
      D.EventsAppend(doc, ids, a.steps, Walk(doc, a.ord, s[n]).steps);
      T.FollowAppend(Inside(base + [T.FirstFrame(start)]), D.Events(doc, ids, a.steps),
          D.Events(doc, ids, Walk(doc, a.ord, s[n]).steps));
    }
  }

  /** The events of a whole document take the grammar from its start to its end. */
  lemma {:induction false} DumpedFollows(doc: Document)
    requires InRange(doc) && doc != []
    ensures Follow(Root, D.Dumped(doc)) == Some(Done)
  {
    D.AnchoredTallied(doc);
    WalkFollows(doc, D.Ids(D.Anchored(doc)), [], 1, Root);
  }

  /** The stream that the dumper issues for one document. */
  ghost function DumpedStream(doc: Document, startImplicit: bool, endImplicit: bool): seq<Event>
    requires InRange(doc) && doc != []
  {
    [StreamStart, DocumentStart(startImplicit)] + D.Dumped(doc) + [DocumentEnd(endImplicit), StreamEnd]
  }

  lemma {:induction false} DumpedStreamFollows(doc: Document, startImplicit: bool, endImplicit: bool)
    requires InRange(doc) && doc != []
    ensures Follow(Before, DumpedStream(doc, startImplicit, endImplicit)) == Some(After)
  {
    DumpedFollows(doc);
    var start, end := [StreamStart, DocumentStart(startImplicit)], [DocumentEnd(endImplicit), StreamEnd];
    FollowTwo(Before, StreamStart, DocumentStart(startImplicit));
    FollowTwo(Done, DocumentEnd(endImplicit), StreamEnd);
    T.FollowAppend(Before, start, D.Dumped(doc));
    T.FollowAppend(Before, start + D.Dumped(doc), end);
  }

  lemma {:induction false} FollowTwo(p: Place, e: Event, f: Event)
    requires Next(p, e).Some?
    ensures Follow(p, [e, f]) == Next(Next(p, e).value, f)
  {
    T.FollowOne(p, e);
    assert [e, f][..1] == [e];
  }
}
