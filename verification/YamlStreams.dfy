/** The parser on a whole stream of printed documents: it makes exactly the events of the documents and ends. */
module YamlStreams {
  import opened Options
  import opened YamlEvents
  import opened YamlSteps
  import opened YamlSources
  import opened YamlPrinted

  // ---- Tag handles ----

  lemma {:induction false} LookupSnoc(ds: seq<TagDirective>, d: TagDirective, h: string)
    ensures Lookup(ds + [d], h) == if Lookup(ds, h).Some? then Lookup(ds, h)
                                   else if d.handle == h then Some(d.prefix)
                                   else None
    decreases |ds|
  {
    if ds != [] {
      assert (ds + [d])[1..] == ds[1..] + [d];
      LookupSnoc(ds[1..], d, h);
    }
  }

  lemma {:induction false} LookupDefined(ds: seq<TagDirective>, h: string)
    requires Distinct(ds)
    ensures Lookup(ds, h) == if h in Defined(ds) then Some(Defined(ds)[h]) else None
    ensures h in Defined(ds) <==> exists k | 0 <= k < |ds| :: ds[k].handle == h
    decreases |ds|
  {
    if ds != [] {
      var n := |ds| - 1;
      assert ds == ds[..n] + [ds[n]];
      LookupDefined(ds[..n], h);
      LookupSnoc(ds[..n], ds[n], h);
      if k :| 0 <= k < |ds| && ds[k].handle == h {
        assert k < n ==> ds[..n][k].handle == h;
      }
    }
  }

  /** The parser has the handles of the document. */
  lemma {:induction false} HandlesAgree(ds: seq<TagDirective>)
    requires Distinct(ds)
    ensures Agree(WithDefaults(ds), HandlesOf(ds))
  {
    var a, b := TagDirective("!", "!"), TagDirective("!!", "tag:yaml.org,2002:");
    var one := Defaulted(ds, a);
    forall h ensures Lookup(WithDefaults(ds), h) == if h in HandlesOf(ds) then Some(HandlesOf(ds)[h]) else None {
      LookupDefined(ds, h);
      LookupDefined(ds, a.handle);
      LookupDefined(ds, b.handle);
      LookupSnoc(ds, a, h);
      LookupSnoc(ds, a, b.handle);
      LookupSnoc(one, b, h);
    }
  }

  // ---- Directives ----

  lemma {:induction false} NewHandle(pre: seq<TagDirective>, ds: seq<TagDirective>)
    requires Distinct(pre + ds) && ds != []
    ensures Lookup(pre, ds[0].handle).None? && pre + ds == pre + [ds[0]] + ds[1..]
  {
    var h := ds[0].handle;
    var all := pre + ds;
    assert all[|pre|] == ds[0];
    forall i, j | 0 <= i < j < |pre| ensures pre[i].handle != pre[j].handle {
      assert all[i].handle != all[j].handle;
    }
    LookupDefined(pre, h);
    forall k | 0 <= k < |pre| ensures pre[k].handle != h {
      assert all[k].handle != all[|pre|].handle;
    }
  }

  lemma {:induction false} DirectiveRead(c: Config, version: bool, d: Directive, rest: seq<Token>)
    requires c.rest == [DirectiveToken(d)] + rest && !c.done
    requires if d.Tag? then Lookup(c.directives, d.handle).None? else !version && (d.minor == 1 || d.minor == 2)
    ensures Directed(c, version) ==
            if !d.Tag? then Directed(c.(rest := rest), true)
            else
              var t := TagDirective(d.handle, d.prefix);
              Directed(c.(rest := rest, directives := c.directives + [t]), version)
  {
    if d.Tag? {
      SkipsTo(c.(directives := c.directives + [TagDirective(d.handle, d.prefix)]), DirectiveToken(d), rest);
    } else {
      SkipsTo(c, DirectiveToken(d), rest);
    }
  }

  lemma {:induction false} TagsFirst(ds: seq<Directive>)
    requires ds != []
    ensures TagsOf(ds) == (if ds[0].Tag? then [TagDirective(ds[0].handle, ds[0].prefix)] else []) + TagsOf(ds[1..])
    ensures !ds[0].Tag? ==> TagsOf(ds) == TagsOf(ds[1..])
    ensures ds[0].Tag? ==> TagsOf(ds) != [] && TagsOf(ds)[0] == TagDirective(ds[0].handle, ds[0].prefix) &&
                           TagsOf(ds)[1..] == TagsOf(ds[1..])
  {}

  /** Directives are read in any order. */
  lemma {:induction false} DirectivesRead(c: Config, version: bool, pre: seq<TagDirective>, ds: seq<Directive>,
                                          body: seq<Token>)
    requires c.rest == PrintDirectives(ds, body) && body != [] && !IsDirective(body[0]) && !c.done
    requires c.directives == pre && Distinct(pre + TagsOf(ds)) && FitVersions(ds, version)
    ensures Directed(c, version) == Some(c.(rest := body, directives := WithDefaults(pre + TagsOf(ds))))
    decreases |ds|
  {
    if ds == [] {
      assert pre + TagsOf(ds) == pre;
    } else {
      var d, rest := ds[0], PrintDirectives(ds[1..], body);
      TagsFirst(ds);
      if d.Tag? {
        var t := TagDirective(d.handle, d.prefix);
        NewHandle(pre, TagsOf(ds));
        DirectiveRead(c, version, d, rest);
        DirectivesRead(c.(rest := rest, directives := pre + [t]), version, pre + [t], ds[1..], body);
      } else {
        DirectiveRead(c, version, d, rest);
        DirectivesRead(c.(rest := rest), true, pre, ds[1..], body);
      }
    }
  }

  lemma {:induction false} ExplicitFirst(d: Written, after: seq<Token>)
    requires d.explicit
    ensures var ts := PrintDocument(d, after); ts != [] && (ts[0] == DocumentStartToken || IsDirective(ts[0]))
  {}

  // ---- One document ----

  /** Between two documents. */
  predicate Ready(c: Config, first: bool) {
    && c.state == (if first then ImplicitDocumentStartState else DocumentStartState)
    && c.states == [] && c.directives == [] && !c.done
  }

  /** What can come after a document. */
  predicate EndsDocument(t: Token) {
    t == StreamEndToken || t == DocumentStartToken || IsDirective(t)
  }

  lemma {:induction false} OutsideStep(c: Config)
    requires !c.done
    ensures c.state == ImplicitDocumentStartState ==> StepOf(c) == DocumentStep(c, true)
    ensures c.state == DocumentStartState ==> StepOf(c) == DocumentStep(c, false)
    ensures c.state == DocumentEndState ==> StepOf(c) == DocumentEndStep(c)
    ensures c.state == DocumentContentState && c.states != [] ==> StepOf(c) == DocumentContentStep(c)
    ensures c.state == BlockNodeState && c.states != [] ==> StepOf(c) == NodeStep(c, true, false)
  {}

  lemma {:induction false} ToExplicit(c: Config, first: bool)
    requires Ready(c, first) && c.rest != [] && (c.rest[0] == DocumentStartToken || IsDirective(c.rest[0]))
    ensures DocumentStep(c, first) == ExplicitStep(c)
  {}

  lemma {:induction false} ExplicitStarts(c: Config, ds: seq<TagDirective>, root: seq<Token>)
    requires c.states == [] && !c.done
    requires Directed(c, false) == Some(c.(rest := [DocumentStartToken] + root, directives := ds))
    ensures ExplicitStep(c) ==
            Made(DocumentStart(false), Config(root, DocumentContentState, [DocumentEndState], ds, false, c.marks))
  {
    SkipsTo(c.(rest := [DocumentStartToken] + root, directives := ds), DocumentStartToken, root);
  }

  /** An explicit document is opened. */
  lemma {:induction false} ExplicitOpens(c: Config, d: Written, first: bool, after: seq<Token>)
    requires Ready(c, first) && d.explicit && FitDocument(d, first) && c.rest == PrintDocument(d, after)
    ensures DocumentStep(c, first) ==
            Made(DocumentStart(false), Config(Print(d.root, PrintEnd(d.ended, after)), DocumentContentState,
                                              [DocumentEndState], WithDefaults(TagsOf(d.directives)), false, c.marks))
  {
    var root := Print(d.root, PrintEnd(d.ended, after));
    ExplicitFirst(d, after);
    ToExplicit(c, first);
    assert [] + TagsOf(d.directives) == TagsOf(d.directives);
    DirectivesRead(c, false, [], d.directives, [DocumentStartToken] + root);
    ExplicitStarts(c, WithDefaults(TagsOf(d.directives)), root);
  }

  /** A document without an indicator. */
  lemma {:induction false} ImplicitOpens(c: Config, d: Written, after: seq<Token>)
    requires Ready(c, true) && !d.explicit && FitDocument(d, true) && c.rest == PrintDocument(d, after)
    ensures DocumentStep(c, true) ==
            Made(DocumentStart(true),
                 Config(c.rest, BlockNodeState, [DocumentEndState], WithDefaults([]), false, c.marks))
  {
    FirstOpens(d.root, InBlock, HandlesOf([]), PrintEnd(d.ended, after));
  }

  lemma {:induction false} EndSteps(c: Config, ended: bool, after: seq<Token>, more: seq<Event>, e: Config)
    requires c.state == DocumentEndState && !c.done && c.rest == PrintEnd(ended, after)
    requires after != [] && EndsDocument(after[0])
    requires Steps(c.(rest := after, state := DocumentStartState, directives := []), more, e)
    ensures Steps(c, [DocumentEnd(!ended)] + more, e)
  {
    var d := c.(rest := after, state := DocumentStartState, directives := []);
    if ended {
      SkipsTo(c, DocumentEndToken, after);
    }
    OutsideStep(c);
    assert DocumentEndStep(c) == Made(DocumentEnd(!ended), d);
    GoesOne(DocumentEnd(!ended), d, more, e);
    GoesSteps(c, DocumentEndStep(c), [DocumentEnd(!ended)] + more, e);
  }

  lemma {:induction false} EndFirst(ended: bool, after: seq<Token>)
    requires after != [] && EndsDocument(after[0])
    ensures var ts := PrintEnd(ended, after);
            ts != [] && Closes(ts[0], InBlock) && (EndsDocument(ts[0]) || ts[0] == DocumentEndToken)
  {}

  /** Nothing in a document. */
  lemma {:induction false} NoContentGoes(c: Config, after: seq<Token>, more: seq<Event>, e: Config)
    requires c.states != [] && c.rest == after
    requires after != [] && (EndsDocument(after[0]) || after[0] == DocumentEndToken)
    requires Steps(Back(c, after), more, e)
    ensures Goes(DocumentContentStep(c), [EmptyScalar()] + more, e)
  {
    assert c.(rest := after) == c;
    GoesOne(EmptyScalar(), Returned(c), more, e);
  }

  lemma {:induction false} ContentNode(c: Config)
    requires c.states != [] && c.rest != [] && Opens(c.rest[0], InBlock)
    ensures DocumentContentStep(c) == NodeStep(c, true, false)
  {}

  /** The root of a document, or nothing. */
  lemma {:induction false} ContentGoes(src: Source, c: Config, handles: Handles, after: seq<Token>, more: seq<Event>,
                                       e: Config)
    requires Before(c, handles) && Fits(src, InBlock, handles) && c.rest == Print(src, after)
    requires after != [] && Closes(after[0], InBlock) && (EndsDocument(after[0]) || after[0] == DocumentEndToken)
    requires Steps(Back(c, after), more, e)
    ensures Goes(DocumentContentStep(c), Events(src, handles, more), e)
  {
    if Missing(src) {
      PropsOpen([], after);
      NoContentGoes(c, after, more, e);
    } else {
      FirstOpens(src, InBlock, handles, after);
      ContentNode(c);
      NodeGoes(src, c, InBlock, handles, after, more, e);
    }
  }

  /** The content of an open document and its end. */
  lemma {:induction false} RootSteps(d: Written, c: Config, after: seq<Token>, more: seq<Event>, e: Config)
    requires FitDocument(d, true) && after != [] && EndsDocument(after[0])
    requires c == Config(Print(d.root, PrintEnd(d.ended, after)),
                         if d.explicit then DocumentContentState else BlockNodeState, [DocumentEndState],
                         WithDefaults(TagsOf(d.directives)), false, c.marks)
    requires Steps(Config(after, DocumentStartState, [], [], false, c.marks), more, e)
    ensures Steps(c, Events(d.root, HandlesOf(TagsOf(d.directives)), [DocumentEnd(!d.ended)] + more), e)
  {
    var handles, rest := HandlesOf(TagsOf(d.directives)), PrintEnd(d.ended, after);
    var next := [DocumentEnd(!d.ended)] + more;
    HandlesAgree(TagsOf(d.directives));
    EndFirst(d.ended, after);
    EndSteps(Back(c, rest), d.ended, after, more, e);
    OutsideStep(c);
    if d.explicit {
      ContentGoes(d.root, c, handles, rest, next, e);
      GoesSteps(c, DocumentContentStep(c), Events(d.root, handles, next), e);
    } else {
      NodeGoes(d.root, c, InBlock, handles, rest, next, e);
      GoesSteps(c, NodeStep(c, true, false), Events(d.root, handles, next), e);
    }
  }

  lemma {:induction false} DocumentSteps(d: Written, c: Config, first: bool, after: seq<Token>, more: seq<Event>,
                                         e: Config)
    requires Ready(c, first) && FitDocument(d, first) && c.rest == PrintDocument(d, after)
    requires after != [] && EndsDocument(after[0])
    requires Steps(Config(after, DocumentStartState, [], [], false, c.marks), more, e)
    ensures Steps(c, DocumentEvents(d, more), e)
  {
    var next := Events(d.root, HandlesOf(TagsOf(d.directives)), [DocumentEnd(!d.ended)] + more);
    var c1 := Config(Print(d.root, PrintEnd(d.ended, after)),
                     if d.explicit then DocumentContentState else BlockNodeState, [DocumentEndState],
                     WithDefaults(TagsOf(d.directives)), false, c.marks);
    RootSteps(d, c1, after, more, e);
    if d.explicit {
      ExplicitOpens(c, d, first, after);
    } else {
      ImplicitOpens(c, d, after);
    }
    OutsideStep(c);
    GoesOne(DocumentStart(!d.explicit), c1, next, e);
    GoesSteps(c, DocumentStep(c, first), DocumentEvents(d, more), e);
  }

  // ---- The stream ----

  /** The parser after the end of the stream. */
  function Over(marks: nat): Config {
    Config([], EndState, [], [], true, marks)
  }

  lemma {:induction false} StreamOver(c: Config, first: bool)
    requires Ready(c, first) && c.rest == [StreamEndToken]
    ensures Steps(c, [StreamEnd], Over(c.marks))
  {
    OutsideStep(c);
    assert c.rest[1..] == [];
    assert DocumentStep(c, first) == Made(StreamEnd, Over(c.marks));
    StepsOne(c, StreamEnd, Over(c.marks));
  }

  lemma {:induction false} DocumentsStep(docs: seq<Written>, c: Config, first: bool, after: seq<Token>)
    requires Ready(c, first) && after == [StreamEndToken] && c.rest == PrintDocuments(docs, after)
    requires forall k | 0 <= k < |docs| :: FitDocument(docs[k], first && k == 0)
    ensures Steps(c, DocumentsEvents(docs, [StreamEnd]), Over(c.marks))
    decreases |docs|
  {
    if docs == [] {
      StreamOver(c, first);
    } else {
      var rest, next := PrintDocuments(docs[1..], after), DocumentsEvents(docs[1..], [StreamEnd]);
      var d := Config(rest, DocumentStartState, [], [], false, c.marks);
      assert forall k | 0 <= k < |docs| - 1 :: docs[1..][k] == docs[k + 1];
      assert forall k | 0 < k < |docs| :: FitDocument(docs[k], false);
      OthersFirst(docs[1..], after);
      DocumentsStep(docs[1..], d, false, after);
      DocumentSteps(docs[0], c, first, rest, next, Over(c.marks));
    }
  }

  lemma {:induction false} OthersFirst(docs: seq<Written>, after: seq<Token>)
    requires after != [] && EndsDocument(after[0]) && forall k | 0 <= k < |docs| :: FitDocument(docs[k], false)
    ensures var ts := PrintDocuments(docs, after); ts != [] && EndsDocument(ts[0])
  {
    if docs != [] {
      assert FitDocument(docs[0], false);
      ExplicitFirst(docs[0], PrintDocuments(docs[1..], after));
    }
  }

  lemma {:induction false} StreamBegins(c: Config, d: Config, rest: seq<Token>)
    requires c == Start([StreamStartToken] + rest) && d == Config(rest, ImplicitDocumentStartState, [], [], false, 0)
    ensures StepOf(c) == Made(StreamStart, d)
  {
    SkipsTo(c, StreamStartToken, rest);
  }

  lemma {:induction false} StreamSteps(docs: seq<Written>)
    requires FitDocuments(docs)
    ensures Steps(Start(PrintStream(docs)), StreamEvents(docs), Over(0))
  {
    var rest, next := PrintDocuments(docs, [StreamEndToken]), DocumentsEvents(docs, [StreamEnd]);
    var c, d := Start(PrintStream(docs)), Config(rest, ImplicitDocumentStartState, [], [], false, 0);
    DocumentsStep(docs, d, true, [StreamEndToken]);
    StreamBegins(c, d, rest);
    GoesOne(StreamStart, d, next, Over(0));
    GoesSteps(c, Made(StreamStart, d), StreamEvents(docs), Over(0));
  }

  /** A run on the tokens of printed documents is complete and makes exactly their events. */
  lemma {:induction false} ParsesExactly(docs: seq<Written>, events: seq<Event>, complete: bool)
    requires FitDocuments(docs) && Ends(Start(PrintStream(docs)), events, complete)
    ensures complete && events == StreamEvents(docs)
  {
    StreamSteps(docs);
    EndsThere(Start(PrintStream(docs)), StreamEvents(docs), Over(0));
    EndsOnce(Start(PrintStream(docs)), events, complete, StreamEvents(docs), true);
  }
}
