/** From the tokens of a document to its nodes: parser and loader together. */
module YamlConfig {
  import opened Options
  import opened YamlEvents
  import opened YamlGraph
  import opened YamlTrees
  import opened YamlLoader
  import opened YamlLoaded
  import S = YamlSources
  import YamlSteps
  import YamlStreams

  // ---- The tree of a document as it is written ----

  function TreeOf(src: S.Source, handles: S.Handles): Tree
    decreases src
  {
    match src
    case Ref(name) => Leaf(Alias(name))
    case Text(props, text, style) => Leaf(S.TextEvent(props, handles, text, style))
    case Bare(props) => Leaf(S.BareEvent(props, handles))
    case List(props, form, items) =>
      var tag := S.TagIn(props, handles);
      Branch(SequenceStart(S.AnchorIn(props), tag, S.Implicit(tag), if form.Flow? then 2 else 1),
             TreesOf(items, handles))
    case Table(props, form, fields) =>
      var tag := S.TagIn(props, handles);
      Branch(MappingStart(S.AnchorIn(props), tag, S.Implicit(tag), if form.Flow? then 2 else 1),
             PairsOf(fields, handles))
    case Single(key, _, value) =>
      Branch(MappingStart(None, None, true, 2), [TreeOf(key, handles), TreeOf(value, handles)])
  }

  function TreesOf(items: S.Items, handles: S.Handles): seq<Tree>
    decreases items
  {
    match items
    case NoItems => []
    case Item(head, tail) => [TreeOf(head, handles)] + TreesOf(tail, handles)
  }

  function PairsOf(fields: S.Fields, handles: S.Handles): (r: seq<Tree>)
    ensures |r| % 2 == 0
    decreases fields
  {
    match fields
    case NoFields => []
    case Field(_, key, _, value, tail) =>
      [TreeOf(key, handles), TreeOf(value, handles)] + PairsOf(tail, handles)
  }

  lemma {:induction false} FlatCons(t: Tree, ts: seq<Tree>, n: nat)
    requires n <= |ts|
    ensures FlatAll([t] + ts, n + 1) == Flat(t) + FlatAll(ts, n)
    decreases n
  {
    if n == 0 {
      assert FlatAll([t] + ts, 0) + Flat(t) == Flat(t) + FlatAll(ts, 0);
    } else {
      FlatCons(t, ts, n - 1);
      assert ([t] + ts)[n] == ts[n - 1];
      assert Flat(t) + FlatAll(ts, n - 1) + Flat(ts[n - 1]) == Flat(t) + (FlatAll(ts, n - 1) + Flat(ts[n - 1]));
    }
  }

  lemma {:induction false} FlatFirst(t: Tree, ts: seq<Tree>, more: seq<Event>)
    ensures FlatAll([t] + ts, |[t] + ts|) + more == Flat(t) + (FlatAll(ts, |ts|) + more)
  {
    FlatCons(t, ts, |ts|);
    assert Flat(t) + FlatAll(ts, |ts|) + more == Flat(t) + (FlatAll(ts, |ts|) + more);
  }

  lemma {:induction false} BranchFlat(start: Event, kids: seq<Tree>, more: seq<Event>)
    ensures Flat(Branch(start, kids)) + more == [start] + (FlatAll(kids, |kids|) + ([EndOf(start)] + more))
  {
    var body := FlatAll(kids, |kids|);
    assert [start] + body + [EndOf(start)] + more == [start] + (body + ([EndOf(start)] + more));
  }

  /** The events of a node are its tree written out. */
  lemma {:induction false} EventsFlat(src: S.Source, handles: S.Handles, more: seq<Event>)
    ensures S.Events(src, handles, more) == Flat(TreeOf(src, handles)) + more
    decreases src
  {
    match src
    case Ref(_) =>
    case Text(_, _, _) =>
    case Bare(_) =>
    case List(_, _, items) =>
      ItemsFlat(items, handles, [SequenceEnd] + more);
      var t := TreeOf(src, handles);
      BranchFlat(t.start, t.kids, more);
    case Table(_, _, fields) =>
      FieldsFlat(fields, handles, [MappingEnd] + more);
      var t := TreeOf(src, handles);
      BranchFlat(t.start, t.kids, more);
    case Single(key, _, value) =>
      var k, v, end := TreeOf(key, handles), TreeOf(value, handles), [MappingEnd] + more;
      EventsFlat(value, handles, end);
      EventsFlat(key, handles, S.Events(value, handles, end));
      PairFlat(k, v, end);
      BranchFlat(MappingStart(None, None, true, 2), [k, v], more);
  }

  lemma {:induction false} PairFlat(k: Tree, v: Tree, more: seq<Event>)
    ensures FlatAll([k, v], 2) + more == Flat(k) + (Flat(v) + more)
  {
    assert [k] + [v] == [k, v] && [v] + [] == [v];
    FlatFirst(v, [], more);
    FlatFirst(k, [v], more);
    assert FlatAll([], 0) + more == more;
  }

  lemma {:induction false} ItemsFlat(items: S.Items, handles: S.Handles, more: seq<Event>)
    ensures var ts := TreesOf(items, handles); S.ItemEvents(items, handles, more) == FlatAll(ts, |ts|) + more
    decreases items
  {
    match items
    case NoItems => assert FlatAll([], 0) + more == more;
    case Item(head, tail) =>
      ItemsFlat(tail, handles, more);
      EventsFlat(head, handles, S.ItemEvents(tail, handles, more));
      FlatFirst(TreeOf(head, handles), TreesOf(tail, handles), more);
  }

  lemma {:induction false} FieldsFlat(fields: S.Fields, handles: S.Handles, more: seq<Event>)
    ensures var ts := PairsOf(fields, handles); S.FieldEvents(fields, handles, more) == FlatAll(ts, |ts|) + more
    decreases fields
  {
    match fields
    case NoFields => assert FlatAll([], 0) + more == more;
    case Field(_, key, _, value, tail) =>
      var k, v, ts := TreeOf(key, handles), TreeOf(value, handles), PairsOf(tail, handles);
      FieldsFlat(tail, handles, more);
      EventsFlat(value, handles, S.FieldEvents(tail, handles, more));
      EventsFlat(key, handles, S.Events(value, handles, S.FieldEvents(tail, handles, more)));
      FlatFirst(v, ts, more);
      FlatFirst(k, [v] + ts, more);
      assert [k] + ([v] + ts) == [k, v] + ts;
  }

  lemma {:induction false} TreeProper(src: S.Source, handles: S.Handles)
    ensures Proper(TreeOf(src, handles))
    decreases src
  {
    match src
    case Ref(_) =>
    case Text(_, _, _) =>
    case Bare(_) =>
    case List(_, _, items) => TreesProper(items, handles);
    case Table(_, _, fields) => PairsProper(fields, handles);
    case Single(key, _, value) =>
      TreeProper(key, handles);
      TreeProper(value, handles);
  }

  lemma {:induction false} TreesProper(items: S.Items, handles: S.Handles)
    ensures AllProper(TreesOf(items, handles))
    decreases items
  {
    if items.Item? {
      TreeProper(items.head, handles);
      TreesProper(items.tail, handles);
    }
  }

  lemma {:induction false} PairsProper(fields: S.Fields, handles: S.Handles)
    ensures AllProper(PairsOf(fields, handles))
    decreases fields
  {
    if fields.Field? {
      TreeProper(fields.key, handles);
      TreeProper(fields.value, handles);
      PairsProper(fields.tail, handles);
    }
  }

  // ---- The first document of a stream ----

  /** A stream of one document and any others: its tokens are parsed to events that load, if the names in it are sound,
      to the nodes of the document as it is written, and fail if not. */
  lemma {:induction false} ConfigLoads(docs: seq<S.Written>, events: seq<Event>, complete: bool)
    requires S.FitDocuments(docs) && docs != []
    requires YamlSteps.Ends(YamlSteps.Start(S.PrintStream(docs)), events, complete)
    ensures complete && |events| >= 2
    ensures var root := TreeOf(docs[0].root, S.HandlesOf(S.TagsOf(docs[0].directives)));
      LoadDocument(EMPTY, events[2..]) ==
        if SoundNames(Flat(root)) then Loaded(Composer(NodesOf(root, 1, Flat(root)), AnchorsIn(Flat(root)), []))
        else Failed
  {
    YamlStreams.ParsesExactly(docs, events, complete);
    var d := docs[0];
    var handles := S.HandlesOf(S.TagsOf(d.directives));
    var rest, end := S.DocumentsEvents(docs[1..], [StreamEnd]), DocumentEnd(!d.ended);
    var root := TreeOf(d.root, handles);
    EventsFlat(d.root, handles, [end] + rest);
    TreeProper(d.root, handles);
    LoadsExactly(root, end, rest);
    Behind(StreamStart, DocumentStart(!d.explicit), Flat(root), end, rest);
  }

  lemma {:induction false} Behind(a: Event, b: Event, body: seq<Event>, end: Event, rest: seq<Event>)
    ensures ([a] + ([b] + (body + ([end] + rest))))[2..] == body + [end] + rest
  {}
}
