/** The loader: events become an indexed document graph.  Node 1 is the root; a context stack holds the open
    collections; aliases lead back to the anchored nodes. */
module YamlLoader {
  import opened Options
  import opened YamlEvents
  import opened YamlGraph

  datatype AliasData = AliasData(anchor: string, index: nat)

  datatype Composer = Composer(nodes: seq<Node>, aliases: seq<AliasData>, ctx: seq<nat>)

  datatype Status = Okay | ComposerError | AssertionFailed

  /** What an event does: a new state, an error of the input, or a failed assertion of the program. */
  datatype Outcome = Loaded(state: Composer) | Failed | Asserted

  const EMPTY := Composer([], [], [])

  ghost predicate InBounds(c: Composer) {
    && (forall k | 0 <= k < |c.ctx| :: 1 <= c.ctx[k] <= |c.nodes|)
    && (forall k | 0 <= k < |c.aliases| :: 1 <= c.aliases[k].index <= |c.nodes|)
  }

  /** A child joins a collection; in a mapping it completes the last pair or starts a new one. */
  function AddChild(n: Node, index: nat): Node
    requires !n.ScalarNode?
  {
    match n
    case SequenceNode(_, items, _) => n.(items := items + [index])
    case MappingNode(_, pairs, _) =>
      var last := |pairs| - 1;
      if pairs != [] && pairs[last].key != 0 && pairs[last].value == 0 then
        n.(pairs := pairs[..last] + [pairs[last].(value := index)])
      else n.(pairs := pairs + [Pair(index, 0)])
  }

  ghost predicate Complete(pairs: seq<Pair>) {
    forall k | 0 <= k < |pairs| :: pairs[k].key != 0 && pairs[k].value != 0
  }

  function NodeAdd(c: Composer, index: nat): (r: Outcome)
    requires InBounds(c)
    ensures r.Loaded? ==> InBounds(r.state) && |r.state.nodes| == |c.nodes| && r.state.ctx == c.ctx
  {
    if c.ctx == [] then Loaded(c)
    else
      var parent := c.ctx[|c.ctx| - 1];
      if c.nodes[parent - 1].ScalarNode? then Asserted
      else Loaded(c.(nodes := c.nodes[parent - 1 := AddChild(c.nodes[parent - 1], index)]))
  }

  function FindAlias(aliases: seq<AliasData>, name: string): Option<nat> {
    if aliases == [] then None
    else if aliases[0].anchor == name then Some(aliases[0].index)
    else FindAlias(aliases[1..], name)
  }

  /** What is found is the index of the first entry of that name. */
  lemma {:induction false} FindAliasIs(aliases: seq<AliasData>, name: string)
    ensures FindAlias(aliases, name).Some? ==>
              exists k | 0 <= k < |aliases| :: aliases[k] == AliasData(name, FindAlias(aliases, name).value)
    ensures FindAlias(aliases, name).None? <==> forall k | 0 <= k < |aliases| :: aliases[k].anchor != name
    decreases |aliases|
  {
    if aliases != [] {
      FindAliasIs(aliases[1..], name);
      assert aliases == [aliases[0]] + aliases[1..];
    }
  }

  function Register(c: Composer, index: nat, anchor: Option<string>): (r: Outcome)
    requires InBounds(c) && 1 <= index <= |c.nodes|
    ensures r.Loaded? ==> InBounds(r.state) && r.state.nodes == c.nodes && r.state.ctx == c.ctx
  {
    match anchor
    case None => Loaded(c)
    case Some(name) =>
      if FindAlias(c.aliases, name).Some? then Failed
      else Loaded(c.(aliases := c.aliases + [AliasData(name, index)]))
  }

  /** A new node, its anchor, and its place in the open collection. */
  function NodeNew(c: Composer, node: Node, anchor: Option<string>): (r: Outcome)
    requires InBounds(c)
    ensures r.Loaded? ==> InBounds(r.state) && |r.state.nodes| == |c.nodes| + 1 && r.state.ctx == c.ctx
  {
    var index := |c.nodes| + 1;
    var r := Register(c.(nodes := c.nodes + [node]), index, anchor);
    if r.Loaded? then NodeAdd(r.state, index) else r
  }

  function TagOr(tag: Option<string>, default: string): string {
    if tag.None? || tag.value == "!" then default else tag.value
  }

  function NodeOf(e: Event): Node
    requires e.Scalar? || e.SequenceStart? || e.MappingStart?
  {
    match e
    case Scalar(_, tag, text, _, _, style) => ScalarNode(TagOr(tag, DEFAULT_SCALAR_TAG), text, style)
    case SequenceStart(_, tag, _, style) => SequenceNode(TagOr(tag, DEFAULT_SEQUENCE_TAG), [], style)
    case MappingStart(_, tag, _, style) => MappingNode(TagOr(tag, DEFAULT_MAPPING_TAG), [], style)
  }

  function Open(r: Outcome, index: nat): (r': Outcome)
    requires r.Loaded? ==> InBounds(r.state) && 1 <= index <= |r.state.nodes|
    ensures r'.Loaded? ==> InBounds(r'.state)
  {
    if r.Loaded? then Loaded(r.state.(ctx := r.state.ctx + [index])) else r
  }

  function Close(c: Composer, sequence: bool): (r: Outcome)
    requires InBounds(c)
    ensures r.Loaded? ==> InBounds(r.state)
  {
    if c.ctx == [] then Asserted
    else
      var node := c.nodes[c.ctx[|c.ctx| - 1] - 1];
      if (if sequence then node.SequenceNode? else node.MappingNode?) then Loaded(c.(ctx := c.ctx[..|c.ctx| - 1]))
      else Asserted
  }

  /** One event inside a document. */
  function Take(c: Composer, e: Event): (r: Outcome)
    requires InBounds(c)
    ensures r.Loaded? ==> InBounds(r.state)
  {
    match e
    case Alias(name) =>
      var found := FindAlias(c.aliases, name);
      if found.None? then Failed else NodeAdd(c, found.value)
    case Scalar(anchor, _, _, _, _, _) => NodeNew(c, NodeOf(e), anchor)
    case SequenceStart(anchor, _, _, _) => Open(NodeNew(c, NodeOf(e), anchor), |c.nodes| + 1)
    case SequenceEnd => Close(c, true)
    case MappingStart(anchor, _, _, _) => Open(NodeNew(c, NodeOf(e), anchor), |c.nodes| + 1)
    case MappingEnd => Close(c, false)
    case StreamStart => Asserted
    case StreamEnd => Asserted
    case DocumentStart(_) => Asserted
    case DocumentEnd(_) => Loaded(c)
  }

  function TakeAll(c: Composer, events: seq<Event>): (r: Outcome)
    requires InBounds(c)
    ensures r.Loaded? ==> InBounds(r.state)
    decreases |events|
  {
    if events == [] then Loaded(c)
    else
      var r := Take(c, events[0]);
      if r.Loaded? then TakeAll(r.state, events[1..]) else r
  }

  lemma {:induction false} TakeAppend(c: Composer, a: seq<Event>, b: seq<Event>)
    requires InBounds(c)
    ensures TakeAll(c, a + b) == var r := TakeAll(c, a); if r.Loaded? then TakeAll(r.state, b) else r
    decreases |a|
  {
    if a == [] {
      assert a + b == b;
    } else {
      assert (a + b)[1..] == a[1..] + b;
      var r := Take(c, a[0]);
      if r.Loaded? {
        TakeAppend(r.state, a[1..], b);
      }
    }
  }

  lemma {:induction false} TakeOne(c: Composer, e: Event)
    requires InBounds(c)
    ensures TakeAll(c, [e]) == Take(c, e)
  {
    assert [e][1..] == [];
  }

  // ---- The loader itself ----

  ghost predicate Did(o: Outcome, s: Status, now: Composer) {
    match o
    case Loaded(c) => s == Okay && now == c
    case Failed => s == ComposerError
    case Asserted => s == AssertionFailed
  }

  /** The events up to DOCUMENT-END; if there is none, the parser has failed. */
  function LoadDocument(c: Composer, events: seq<Event>): Outcome
    requires InBounds(c)
    decreases |events|
  {
    if events == [] then Failed
    else if events[0].DocumentEnd? then Loaded(c)
    else
      var r := Take(c, events[0]);
      if r.Loaded? then LoadDocument(r.state, events[1..]) else r
  }

  lemma {:induction false} LoadsBody(c: Composer, body: seq<Event>, end: Event, rest: seq<Event>)
    requires InBounds(c) && end.DocumentEnd? && forall e | e in body :: !e.DocumentEnd?
    ensures LoadDocument(c, body + [end] + rest) == TakeAll(c, body)
    decreases |body|
  {
    var events := body + [end] + rest;
    if body != [] {
      assert events[0] == body[0] && body[0] in body;
      assert events[1..] == body[1..] + [end] + rest;
      var r := Take(c, body[0]);
      if r.Loaded? {
        LoadsBody(r.state, body[1..], end, rest);
      }
    } else {
      assert events[0] == end;
    }
  }

  class Loader {
    var nodes: seq<Node>
    var aliases: seq<AliasData>
    var ctx: seq<nat>

    constructor ()
      ensures Now() == EMPTY
    {
      nodes, aliases, ctx := [], [], [];
    }

    ghost function Now(): Composer
      reads this
    {
      Composer(nodes, aliases, ctx)
    }

    /** load_node_add */
    method AddNode(index: nat) returns (s: Status)
      requires InBounds(Now())
      modifies this`nodes
      ensures Did(NodeAdd(old(Now()), index), s, Now())
    {
      if ctx == [] {
        return Okay;
      }
      var parent := ctx[|ctx| - 1];
      match nodes[parent - 1] {
        case SequenceNode(tag, items, style) =>
          nodes := nodes[parent - 1 := SequenceNode(tag, items + [index], style)];
        case MappingNode(tag, pairs, style) =>
          var last := |pairs| - 1;
          if pairs != [] && pairs[last].key != 0 && pairs[last].value == 0 {
            nodes := nodes[parent - 1 := MappingNode(tag, pairs[..last] + [Pair(pairs[last].key, index)], style)];
          } else {
            nodes := nodes[parent - 1 := MappingNode(tag, pairs + [Pair(index, 0)], style)];
          }
        case ScalarNode(_, _, _) =>
          return AssertionFailed;
      }
      s := Okay;
    }

    /** The first alias of that name. */
    method Search(name: string) returns (found: Option<nat>)
      ensures found == FindAlias(aliases, name)
    {
      for k := 0 to |aliases|
        invariant FindAlias(aliases, name) == FindAlias(aliases[k..], name)
      {
        assert aliases[k..][1..] == aliases[k + 1..];
        if aliases[k].anchor == name {
          return Some(aliases[k].index);
        }
      }
      found := None;
    }

    /** register_anchor: a name can be anchored only once. */
    method RegisterAnchor(index: nat, anchor: Option<string>) returns (s: Status)
      requires InBounds(Now()) && 1 <= index <= |nodes|
      modifies this`aliases
      ensures Did(Register(old(Now()), index, anchor), s, Now())
    {
      if anchor.None? {
        return Okay;
      }
      var found := Search(anchor.value);
      if found.Some? {
        return ComposerError;
      }
      aliases := aliases + [AliasData(anchor.value, index)];
      s := Okay;
    }

    method LoadAlias(name: string) returns (s: Status)
      requires InBounds(Now())
      modifies this
      ensures Did(Take(old(Now()), Alias(name)), s, Now())
    {
      var found := Search(name);
      if found.None? {
        return ComposerError;
      }
      s := AddNode(found.value);
    }

    method NewNode(node: Node, anchor: Option<string>) returns (s: Status)
      requires InBounds(Now())
      modifies this`nodes, this`aliases
      ensures Did(NodeNew(old(Now()), node, anchor), s, Now())
    {
      nodes := nodes + [node];
      s := RegisterAnchor(|nodes|, anchor);
      if s == Okay {
        s := AddNode(|nodes|);
      }
    }

    /** load_scalar, load_sequence and load_mapping */
    method LoadNode(e: Event) returns (s: Status)
      requires InBounds(Now()) && (e.Scalar? || e.SequenceStart? || e.MappingStart?)
      modifies this
      ensures Did(Take(old(Now()), e), s, Now())
    {
      s := NewNode(NodeOf(e), e.anchor);
      if s == Okay && !e.Scalar? {
        ctx := ctx + [|nodes|];
      }
    }

    /** load_sequence_end and load_mapping_end */
    method LoadEnd(sequence: bool) returns (s: Status)
      requires InBounds(Now())
      modifies this`ctx
      ensures Did(Close(old(Now()), sequence), s, Now())
    {
      if ctx == [] {
        return AssertionFailed;
      }
      var node := nodes[ctx[|ctx| - 1] - 1];
      if !(if sequence then node.SequenceNode? else node.MappingNode?) {
        return AssertionFailed;
      }
      ctx := ctx[..|ctx| - 1];
      s := Okay;
    }

    method LoadEvent(e: Event) returns (s: Status)
      requires InBounds(Now())
      modifies this
      ensures Did(Take(old(Now()), e), s, Now())
    {
      match e {
        case Alias(name) => s := LoadAlias(name);
        case Scalar(_, _, _, _, _, _) => s := LoadNode(e);
        case SequenceStart(_, _, _, _) => s := LoadNode(e);
        case SequenceEnd => s := LoadEnd(true);
        case MappingStart(_, _, _, _) => s := LoadNode(e);
        case MappingEnd => s := LoadEnd(false);
        case DocumentEnd(_) => s := Okay;
        case _ => s := AssertionFailed;
      }
    }

    /** load_nodes: read events until DOCUMENT-END. */
    method LoadNodes(events: seq<Event>) returns (s: Status)
      requires InBounds(Now())
      modifies this
      ensures Did(LoadDocument(old(Now()), events), s, Now())
    {
      var k := 0;
      while true
        invariant k <= |events| && InBounds(Now())
        invariant LoadDocument(old(Now()), events) == LoadDocument(Now(), events[k..])
        decreases |events| - k
      {
        if k == |events| {
          return ComposerError;
        }
        if events[k].DocumentEnd? {
          return Okay;
        }
        s := LoadEvent(events[k]);
        if s != Okay {
          return;
        }
        assert events[k..][1..] == events[k + 1..];
        k := k + 1;
      }
    }
  }
}
