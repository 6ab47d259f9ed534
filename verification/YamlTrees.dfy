/** The event grammar as trees: the streams that the acceptor follows to the end are exactly those that a
    sequence of documents, each with one tree, is written out to. */
module YamlTrees {
  import opened Options
  import opened YamlEvents
  import opened YamlGrammar

  datatype Tree = Leaf(event: Event) | Branch(start: Event, kids: seq<Tree>)

  function EndOf(start: Event): Event {
    if start.SequenceStart? then SequenceEnd else MappingEnd
  }

  function FirstFrame(start: Event): Frame {
    if start.SequenceStart? then ItemFrame else KeyFrame
  }

  predicate IsStart(e: Event) {
    e.SequenceStart? || e.MappingStart?
  }

  /** Leaves are aliases and scalars, branches are collections, and a mapping has as many values as keys. */
  ghost predicate Proper(t: Tree) {
    match t
    case Leaf(e) => e.Alias? || e.Scalar?
    case Branch(start, kids) =>
      && IsStart(start) && (start.MappingStart? ==> |kids| % 2 == 0)
      && forall k | 0 <= k < |kids| :: Proper(kids[k])
  }

  ghost predicate AllProper(kids: seq<Tree>) {
    forall k | 0 <= k < |kids| :: Proper(kids[k])
  }

  function Flat(t: Tree): (r: seq<Event>)
    decreases t, 0
  {
    match t
    case Leaf(e) => [e]
    case Branch(start, kids) => [start] + FlatAll(kids, |kids|) + [EndOf(start)]
  }

  /** The first `n` trees written out. */
  function FlatAll(kids: seq<Tree>, n: nat): seq<Event>
    requires n <= |kids|
    decreases kids, n
  {
    if n == 0 then [] else FlatAll(kids, n - 1) + Flat(kids[n - 1])
  }

  datatype Document = Document(startImplicit: bool, root: Tree, endImplicit: bool)

  function FlatDocument(d: Document): seq<Event> {
    [DocumentStart(d.startImplicit)] + Flat(d.root) + [DocumentEnd(d.endImplicit)]
  }

  function FlatDocuments(docs: seq<Document>): seq<Event> {
    if docs == [] then [] else FlatDocuments(docs[..|docs| - 1]) + FlatDocument(docs[|docs| - 1])
  }

  ghost predicate ProperDocuments(docs: seq<Document>) {
    forall k | 0 <= k < |docs| :: Proper(docs[k].root)
  }

  // ---- Every tree is accepted ----

  lemma {:induction false} FollowAppend(p: Place, a: seq<Event>, b: seq<Event>)
    ensures Follow(p, a + b) == var r := Follow(p, a); if r.None? then None else Follow(r.value, b)
    decreases |b|
  {
    if b == [] {
      assert a + b == a;
    } else {
      assert (a + b)[..|a + b| - 1] == a + b[..|b| - 1];
      FollowAppend(p, a, b[..|b| - 1]);
    }
  }

  lemma {:induction false} FollowOne(p: Place, e: Event)
    ensures Follow(p, [e]) == Next(p, e)
  {
    assert [e][..0] == [];
  }

  /** What a collection waits for after `n` children. */
  function FrameAfter(start: Event, n: nat): Frame {
    if start.SequenceStart? then ItemFrame else if n % 2 == 0 then KeyFrame else ValueFrame
  }

  lemma {:induction false} TreeFollows(p: Place, t: Tree)
    requires Proper(t) && WantsNode(p)
    ensures Follow(p, Flat(t)) == Some(Open(Beyond(p)))
    decreases t, 0
  {
    match t
    case Leaf(e) => FollowOne(p, e);
    case Branch(start, kids) =>
      KidsFollow(Beyond(p), start, kids, |kids|);
      BranchFollows(p, start, FlatAll(kids, |kids|));
  }

  lemma {:induction false} BranchFollows(p: Place, start: Event, body: seq<Event>)
    requires IsStart(start) && WantsNode(p)
    requires var q := Inside(Beyond(p) + [FirstFrame(start)]); Follow(q, body) == Some(q)
    ensures Follow(p, [start] + body + [EndOf(start)]) == Some(Open(Beyond(p)))
  {
    var q := Inside(Beyond(p) + [FirstFrame(start)]);
    FollowOne(p, start);
    FollowAppend(p, [start], body);
    FollowAppend(p, [start] + body, [EndOf(start)]);
    FollowOne(q, EndOf(start));
    assert q.stack[..|Beyond(p)|] == Beyond(p);
  }

  lemma {:induction false} KidsFollow(base: seq<Frame>, start: Event, kids: seq<Tree>, n: nat)
    requires IsStart(start) && AllProper(kids) && n <= |kids|
    ensures Follow(Inside(base + [FirstFrame(start)]), FlatAll(kids, n)) == Some(Inside(base + [FrameAfter(start, n)]))
    decreases kids, n
  {
    var p := Inside(base + [FirstFrame(start)]);
    if n == 0 {
      assert FlatAll(kids, n) == [];
    } else {
      KidsFollow(base, start, kids, n - 1);
      var q := Inside(base + [FrameAfter(start, n - 1)]);
      TreeFollows(q, kids[n - 1]);
      NextFrame(base, start, n - 1);
      FollowAppend(p, FlatAll(kids, n - 1), Flat(kids[n - 1]));
    }
  }

  lemma {:induction false} NextFrame(base: seq<Frame>, start: Event, n: nat)
    requires IsStart(start)
    ensures Open(Beyond(Inside(base + [FrameAfter(start, n)]))) == Inside(base + [FrameAfter(start, n + 1)])
  {
    assert (base + [FrameAfter(start, n)])[..|base|] == base;
  }

  lemma {:induction false} DocumentsFollow(docs: seq<Document>)
    requires ProperDocuments(docs)
    ensures Follow(Between, FlatDocuments(docs)) == Some(Between)
    decreases |docs|
  {
    if docs != [] {
      var n := |docs| - 1;
      var d := docs[n];
      DocumentsFollow(docs[..n]);
      TreeFollows(Root, d.root);
      FollowOne(Between, DocumentStart(d.startImplicit));
      FollowAppend(Between, [DocumentStart(d.startImplicit)], Flat(d.root));
      FollowAppend(Between, [DocumentStart(d.startImplicit)] + Flat(d.root), [DocumentEnd(d.endImplicit)]);
      FollowOne(Done, DocumentEnd(d.endImplicit));
      FollowAppend(Between, FlatDocuments(docs[..n]), FlatDocument(d));
    }
  }

  /** Every stream of documents is accepted. */
  lemma {:induction false} StreamFollows(docs: seq<Document>)
    requires ProperDocuments(docs)
    ensures Follow(Before, [StreamStart] + FlatDocuments(docs) + [StreamEnd]) == Some(After)
  {
    DocumentsFollow(docs);
    FollowOne(Before, StreamStart);
    FollowAppend(Before, [StreamStart], FlatDocuments(docs));
    FollowAppend(Before, [StreamStart] + FlatDocuments(docs), [StreamEnd]);
    FollowOne(Between, StreamEnd);
  }

  // ---- Only trees are accepted ----

  /** A collection that has started and not ended. */
  datatype Partial = Partial(start: Event, kids: seq<Tree>)

  /** What has been read so far. */
  datatype Parts =
    | Nothing
    | Closed(docs: seq<Document>)
    | Reading(docs: seq<Document>, implicit: bool, path: seq<Partial>)
    | Complete(docs: seq<Document>, implicit: bool, root: Tree)
    | Ended(docs: seq<Document>)

  function FlatPath(path: seq<Partial>): seq<Event> {
    if path == [] then []
    else
      var top := path[|path| - 1];
      FlatPath(path[..|path| - 1]) + ([top.start] + FlatAll(top.kids, |top.kids|))
  }

  function FlatParts(x: Parts): seq<Event> {
    match x
    case Nothing => []
    case Closed(docs) => [StreamStart] + FlatDocuments(docs)
    case Reading(docs, implicit, path) => [StreamStart] + FlatDocuments(docs) +
        ([DocumentStart(implicit)] + FlatPath(path))
    case Complete(docs, implicit, root) => [StreamStart] + FlatDocuments(docs) +
        ([DocumentStart(implicit)] + Flat(root))
    case Ended(docs) => [StreamStart] + FlatDocuments(docs) + [StreamEnd]
  }

  /** The frames of collections in which another node is being read. */
  function Upper(path: seq<Partial>): seq<Frame> {
    if path == [] then []
    else
      var top := path[|path| - 1];
      Upper(path[..|path| - 1]) + [FrameAfter(top.start, |top.kids| + 1)]
  }

  function PlaceOfPath(path: seq<Partial>): Place {
    if path == [] then Root
    else
      var top := path[|path| - 1];
      Inside(Upper(path[..|path| - 1]) + [FrameAfter(top.start, |top.kids|)])
  }

  function PlaceOfParts(x: Parts): Place {
    match x
    case Nothing => Before
    case Closed(_) => Between
    case Reading(_, _, path) => PlaceOfPath(path)
    case Complete(_, _, _) => Done
    case Ended(_) => After
  }

  ghost predicate ProperPath(path: seq<Partial>) {
    forall k | 0 <= k < |path| :: IsStart(path[k].start) && AllProper(path[k].kids)
  }

  ghost predicate ProperParts(x: Parts) {
    && (!x.Nothing? ==> ProperDocuments(x.docs))
    && (x.Reading? ==> ProperPath(x.path)) && (x.Complete? ==> Proper(x.root))
  }

  ghost predicate Describes(x: Parts, p: Place, events: seq<Event>) {
    ProperParts(x) && PlaceOfParts(x) == p && FlatParts(x) == events
  }

  /** A complete tree joins the innermost open collection, or is the root. */
  function Join(docs: seq<Document>, implicit: bool, path: seq<Partial>, t: Tree): Parts {
    if path == [] then Complete(docs, implicit, t)
    else
      var n := |path| - 1;
      Reading(docs, implicit, path[..n] + [Partial(path[n].start, path[n].kids + [t])])
  }

  lemma {:induction false} FlatAllPrefix(kids: seq<Tree>, t: Tree, n: nat)
    requires n <= |kids|
    ensures FlatAll(kids + [t], n) == FlatAll(kids, n)
    decreases n
  {
    if n > 0 {
      FlatAllPrefix(kids, t, n - 1);
    }
  }

  lemma {:induction false} FlatAllSnoc(kids: seq<Tree>, t: Tree)
    ensures FlatAll(kids + [t], |kids| + 1) == FlatAll(kids, |kids|) + Flat(t)
  {
    FlatAllPrefix(kids, t, |kids|);
  }

  lemma {:induction false} PathAround(a: seq<Event>, b: seq<Event>, c: seq<Event>, d: seq<Event>)
    ensures a + ((b + c) + d) == a + (b + c) + d
    ensures a + (b + (c + d)) == a + (b + c) + d
  {}

  lemma {:induction false} FlatPathSnoc(path: seq<Partial>, x: Partial)
    ensures FlatPath(path + [x]) == FlatPath(path) + ([x.start] + FlatAll(x.kids, |x.kids|))
    ensures Upper(path + [x]) == Upper(path) + [FrameAfter(x.start, |x.kids| + 1)]
    ensures PlaceOfPath(path + [x]) == Inside(Upper(path) + [FrameAfter(x.start, |x.kids|)])
  {
    assert (path + [x])[..|path|] == path;
  }

  /** The frames once one more node has been read in the innermost collection. */
  lemma {:induction false} BeyondPath(path: seq<Partial>)
    requires ProperPath(path)
    ensures Beyond(PlaceOfPath(path)) == Upper(path)
  {
    if path != [] {
      var n := |path| - 1;
      var u, f := Upper(path[..n]), FrameAfter(path[n].start, |path[n].kids|);
      assert (u + [f])[..|u|] == u;
    }
  }

  lemma {:induction false} JoinFlat(init: seq<Partial>, x: Partial, t: Tree)
    ensures FlatPath(init + [Partial(x.start, x.kids + [t])]) == FlatPath(init + [x]) + Flat(t)
  {
    FlatAllSnoc(x.kids, t);
    FlatPathSnoc(init, x);
    FlatPathSnoc(init, Partial(x.start, x.kids + [t]));
    var a, b, c := FlatPath(init), FlatAll(x.kids, |x.kids|), Flat(t);
    assert a + ([x.start] + (b + c)) == a + ([x.start] + b) + c;
  }

  lemma {:induction false} JoinDescribes(docs: seq<Document>, implicit: bool, path: seq<Partial>, t: Tree)
    requires ProperDocuments(docs) && ProperPath(path) && Proper(t)
    ensures Describes(Join(docs, implicit, path, t), Open(Upper(path)),
            FlatParts(Reading(docs, implicit, path)) + Flat(t))
  {
    var w, d := [StreamStart] + FlatDocuments(docs), [DocumentStart(implicit)];
    PathAround(w, d, FlatPath(path), Flat(t));
    if path != [] {
      var n := |path| - 1;
      var init, x := path[..n], path[n];
      assert path == init + [x];
      JoinFlat(init, x, t);
      FlatPathSnoc(init, Partial(x.start, x.kids + [t]));
    } else {
      assert d + FlatPath(path) == d;
    }
  }

  lemma {:induction false} StartDescribes(docs: seq<Document>, implicit: bool, path: seq<Partial>, e: Event)
    requires ProperDocuments(docs) && ProperPath(path) && IsStart(e)
    ensures Describes(Reading(docs, implicit, path + [Partial(e, [])]), Inside(Upper(path) + [FirstFrame(e)]),
                      FlatParts(Reading(docs, implicit, path)) + [e])
  {
    var w, d := [StreamStart] + FlatDocuments(docs), [DocumentStart(implicit)];
    FlatPathSnoc(path, Partial(e, []));
    assert [e] + FlatAll([], 0) == [e];
    PathAround(w, d, FlatPath(path), [e]);
  }

  lemma {:induction false} EndFits(u: seq<Frame>, x: Partial, e: Event)
    requires IsStart(x.start) && AllProper(x.kids) && (e.SequenceEnd? || e.MappingEnd?)
    requires Next(Inside(u + [FrameAfter(x.start, |x.kids|)]), e).Some?
    ensures e == EndOf(x.start) && Proper(Branch(x.start, x.kids))
    ensures Next(Inside(u + [FrameAfter(x.start, |x.kids|)]), e).value == Open(u)
  {
    assert (u + [FrameAfter(x.start, |x.kids|)])[..|u|] == u;
  }

  lemma {:induction false} EndDescribesLast(docs: seq<Document>, implicit: bool, init: seq<Partial>, x: Partial,
                                            e: Event) returns (x': Parts)
    requires ProperDocuments(docs) && ProperPath(init) && IsStart(x.start) && AllProper(x.kids) &&
             (e.SequenceEnd? || e.MappingEnd?)
    requires Next(Inside(Upper(init) + [FrameAfter(x.start, |x.kids|)]), e).Some?
    ensures Describes(x', Next(Inside(Upper(init) + [FrameAfter(x.start, |x.kids|)]), e).value,
                      FlatParts(Reading(docs, implicit, init + [x])) + [e])
  {
    EndFits(Upper(init), x, e);
    x' := Join(docs, implicit, init, Branch(x.start, x.kids));
    JoinDescribes(docs, implicit, init, Branch(x.start, x.kids));
    EndFlat(docs, implicit, init, x);
  }

  /** An end event completes the innermost collection. */
  lemma {:induction false} EndDescribes(docs: seq<Document>, implicit: bool, path: seq<Partial>, e: Event)
    returns (x': Parts)
    requires ProperDocuments(docs) && ProperPath(path) && (e.SequenceEnd? || e.MappingEnd?)
    requires Next(PlaceOfPath(path), e).Some?
    ensures Describes(x', Next(PlaceOfPath(path), e).value, FlatParts(Reading(docs, implicit, path)) + [e])
  {
    var n := |path| - 1;
    assert path == path[..n] + [path[n]];
    x' := EndDescribesLast(docs, implicit, path[..n], path[n], e);
  }

  lemma {:induction false} EndFlat(docs: seq<Document>, implicit: bool, init: seq<Partial>, x: Partial)
    ensures FlatParts(Reading(docs, implicit, init)) + Flat(Branch(x.start, x.kids)) ==
            FlatParts(Reading(docs, implicit, init + [x])) + [EndOf(x.start)]
  {
    FlatPathSnoc(init, x);
    var w, d, e := [StreamStart] + FlatDocuments(docs), [DocumentStart(implicit)], [EndOf(x.start)];
    var a, b := FlatPath(init), [x.start] + FlatAll(x.kids, |x.kids|);
    assert w + (d + a) + (b + e) == w + (d + (a + b)) + e;
  }

  /** One more event: what has been read grows by it. */
  lemma {:induction false} PartsNext(x: Parts, e: Event) returns (x': Parts)
    requires ProperParts(x) && Next(PlaceOfParts(x), e).Some?
    ensures Describes(x', Next(PlaceOfParts(x), e).value, FlatParts(x) + [e])
  {
    match x
    case Nothing =>
      x' := Closed([]);
    case Closed(docs) =>
      if e.StreamEnd? {
        x' := Ended(docs);
      } else {
        x' := Reading(docs, e.startImplicit, []);
        assert [e] + FlatPath([]) == [e];
      }
    case Complete(docs, implicit, root) =>
      x' := DocumentEnds(docs, implicit, root, e);
    case Ended(_) =>
    case Reading(docs, implicit, path) =>
      BeyondPath(path);
      if e.Alias? || e.Scalar? {
        x' := Join(docs, implicit, path, Leaf(e));
        JoinDescribes(docs, implicit, path, Leaf(e));
      } else if IsStart(e) {
        x' := Reading(docs, implicit, path + [Partial(e, [])]);
        StartDescribes(docs, implicit, path, e);
      } else {
        x' := EndDescribes(docs, implicit, path, e);
      }
  }

  lemma {:induction false} DocumentEnds(docs: seq<Document>, implicit: bool, root: Tree, e: Event) returns (x': Parts)
    requires ProperDocuments(docs) && Proper(root) && e.DocumentEnd?
    ensures Describes(x', Between, FlatParts(Complete(docs, implicit, root)) + [e])
  {
    var d := Document(implicit, root, e.endImplicit);
    x' := Closed(docs + [d]);
    assert (docs + [d])[..|docs|] == docs;
    var w, s := [StreamStart] + FlatDocuments(docs), [DocumentStart(implicit)];
    assert w + (s + Flat(root)) + [e] == [StreamStart] + (FlatDocuments(docs) + (s + Flat(root) + [e]));
  }

  /** Every stream that the acceptor follows is one of documents, each with one tree, possibly cut off. */
  lemma {:induction false} FollowedParts(events: seq<Event>) returns (x: Parts)
    requires Follow(Before, events).Some?
    ensures Describes(x, Follow(Before, events).value, events)
    decreases |events|
  {
    if events == [] {
      x := Nothing;
    } else {
      var n := |events| - 1;
      var x0 := FollowedParts(events[..n]);
      x := PartsFollow(events, x0);
    }
  }

  lemma {:induction false} PartsFollow(events: seq<Event>, x0: Parts) returns (x: Parts)
    requires events != [] && Follow(Before, events).Some? && Follow(Before, events[..|events| - 1]).Some?
    requires Describes(x0, Follow(Before, events[..|events| - 1]).value, events[..|events| - 1])
    ensures Describes(x, Follow(Before, events).value, events)
  {
    var n := |events| - 1;
    x := PartsNext(x0, events[n]);
    assert events[..n] + [events[n]] == events;
  }

  /** The complete streams are exactly those of the grammar. */
  lemma {:induction false} CompleteStreams(events: seq<Event>)
    ensures Follow(Before, events) == Some(After) <==>
            exists docs: seq<Document> :: ProperDocuments(docs) &&
                events == [StreamStart] + FlatDocuments(docs) + [StreamEnd]
  {
    if Follow(Before, events) == Some(After) {
      var x := FollowedParts(events);
      assert x.Ended? && ProperDocuments(x.docs);
    }
    if docs: seq<Document> :| ProperDocuments(docs) && events == [StreamStart] + FlatDocuments(docs) + [StreamEnd] {
      StreamFollows(docs);
    }
  }
}
