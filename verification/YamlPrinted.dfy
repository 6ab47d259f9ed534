/** The parser on the tokens of a printed node: step by step the events of the node, and nothing else. */
module YamlPrinted {
  import opened Options
  import opened YamlEvents
  import opened YamlSteps
  import opened YamlSources

  /** The tag directives of the parser are the handles of the document. */
  ghost predicate Agree(ds: seq<TagDirective>, handles: Handles) {
    forall h :: Lookup(ds, h) == if h in handles then Some(handles[h]) else None
  }

  /** A step makes the first of the events, and the others lead to `e`. */
  ghost predicate Goes(step: Step, events: seq<Event>, e: Config) {
    events != [] && step.Made? && step.event == events[0] && Steps(step.next, events[1..], e)
  }

  lemma {:induction false} GoesOne(x: Event, next: Config, more: seq<Event>, e: Config)
    requires Steps(next, more, e)
    ensures Goes(Made(x, next), [x] + more, e)
  {
    assert ([x] + more)[1..] == more;
  }

  lemma {:induction false} GoesSteps(c: Config, step: Step, events: seq<Event>, e: Config)
    requires StepOf(c) == step && Goes(step, events, e)
    ensures Steps(c, events, e)
  {}

  // ---- What follows ----

  /** What can come after a node. */
  predicate Closes(t: Token, w: Where) {
    match w
    case InTable => t.KeyToken? || t.ValueToken? || t.BlockEndToken?
    case InFlow => t.ValueToken? || t.FlowEntryToken? || t.FlowSequenceEndToken? || t.FlowMappingEndToken?
    case InBlock =>
      || t.BlockEntryToken? || t.KeyToken? || t.ValueToken? || t.BlockEndToken? || t.DocumentStartToken?
      || t.DocumentEndToken? || t.StreamEndToken? || IsDirective(t)
  }

  /** What a node can begin with. */
  predicate Opens(t: Token, w: Where) {
    || t.AliasToken? || t.AnchorToken? || t.TagToken? || t.ScalarToken? || t.BlockSequenceStartToken?
    || t.BlockMappingStartToken? || t.FlowSequenceStartToken? || t.FlowMappingStartToken?
    || (w.InTable? && t.BlockEntryToken?)
  }

  lemma {:induction false} PropsOpen(props: seq<Property>, after: seq<Token>)
    ensures PrintProps(props, after) == if props == [] then after
                                        else [PropertyToken(props[0])] + PrintProps(props[1..], after)
    ensures props != [] ==> PrintProps(props, after) != [] && Opens(PrintProps(props, after)[0], InBlock)
  {}

  /** A node that is not left out has a first token. */
  lemma {:induction false} FirstOpens(src: Source, w: Where, handles: Handles, after: seq<Token>)
    requires Fits(src, w, handles) && !Missing(src)
    ensures var ts := Print(src, after); ts != [] && Opens(ts[0], w)
  {
    match src
    case Ref(_) =>
    case Text(props, text, style) => PropsOpen(props, [ScalarToken(text, style)] + after);
    case Bare(props) => PropsOpen(props, after);
    case List(props, form, items) =>
      PropsOpen(props, PrintList(form, items, after));
      assert form.Indentless? ==> PrintBlockItems(items, after)[0] == BlockEntryToken;
    case Table(props, form, fields) => PropsOpen(props, PrintTable(form, fields, after));
  }

  // ---- Properties ----

  function TagProperty(props: seq<Property>): Option<TagDirective> {
    if props == [] then None
    else if props[0].Tagged? then Some(TagDirective(props[0].handle, props[0].suffix))
    else TagProperty(props[1..])
  }

  lemma {:induction false} TagResolves(props: seq<Property>, handles: Handles, ds: seq<TagDirective>)
    requires FitProps(props, handles) && Agree(ds, handles)
    ensures var t := TagProperty(props);
            TagIn(props, handles) == if t.None? then None else Resolved(ds, t.value)
    ensures TagProperty(props).Some? ==> TagIn(props, handles).Some?
  {
    if props != [] && !props[0].Tagged? && |props| == 2 {
      assert props[1..][0] == props[1] && props[1] in props;
    }
  }

  /** A token before which properties end. */
  predicate Plain(t: Token) {
    !t.AnchorToken? && !t.TagToken?
  }

  lemma {:induction false} HeaderReads(c: Config, props: seq<Property>, handles: Handles, after: seq<Token>)
    requires FitProps(props, handles) && after != [] && Plain(after[0]) && !c.done && c.rest == PrintProps(props, after)
    ensures c.rest != [] && (props != [] ==> !c.rest[0].AliasToken?)
    ensures ReadHeader(c) == Some(Header(c.(rest := after), AnchorIn(props), TagProperty(props)))
  {
    if props != [] {
      var b := PrintProps(props[1..], after);
      assert c.rest[1..] == b;
      if |props| == 2 {
        assert props[1..][0] == props[1] && props[1..][1..] == [];
        PropsOpen(props[1..], after);
        PropsOpen([], after);
        assert b[1..] == after;
      } else {
        assert b == after;
      }
    }
  }

  /** Properties are read as they were written. */
  lemma {:induction false} PropsRead(c: Config, props: seq<Property>, handles: Handles, after: seq<Token>)
    requires FitProps(props, handles) && after != [] && Plain(after[0]) && !c.done && c.rest == PrintProps(props, after)
    requires Agree(c.directives, handles)
    ensures Decoration(c) == Some(Decorated(c.(rest := after), AnchorIn(props), TagIn(props, handles)))
  {
    HeaderReads(c, props, handles, after);
    TagResolves(props, handles, c.directives);
  }

  lemma {:induction false} NodeContent(c: Config, w: Where, props: seq<Property>, handles: Handles, after: seq<Token>)
    requires FitProps(props, handles) && after != [] && Plain(after[0]) && !c.done && c.rest == PrintProps(props, after)
    requires Agree(c.directives, handles) && c.states != [] && (props == [] ==> !after[0].AliasToken?)
    ensures NodeStep(c, !w.InFlow?, w.InTable?) ==
            ContentStep(c.(rest := after), !w.InFlow?, w.InTable?, AnchorIn(props), TagIn(props, handles))
  {
    PropsRead(c, props, handles, after);
    PropsOpen(props, after);
  }

  /** The state that the parser returns to after a node. */
  function Back(c: Config, after: seq<Token>): Config
    requires c.states != []
  {
    Returned(c.(rest := after))
  }

  /** The parser before the tokens of a node in such a place. */
  ghost predicate Before(c: Config, handles: Handles) {
    Agree(c.directives, handles) && c.states != [] && !c.done
  }

  lemma {:induction false} TextGoes(c: Config, w: Where, handles: Handles, props: seq<Property>, text: string,
                                    style: nat, after: seq<Token>, more: seq<Event>, e: Config)
    requires Before(c, handles) && FitProps(props, handles)
    requires c.rest == PrintProps(props, [ScalarToken(text, style)] + after) && Steps(Back(c, after), more, e)
    ensures Goes(NodeStep(c, !w.InFlow?, w.InTable?), [TextEvent(props, handles, text, style)] + more, e)
  {
    var b := [ScalarToken(text, style)] + after;
    NodeContent(c, w, props, handles, b);
    assert b[1..] == after;
    GoesOne(TextEvent(props, handles, text, style), Back(c, after), more, e);
  }

  lemma {:induction false} BareGoes(c: Config, w: Where, handles: Handles, props: seq<Property>, after: seq<Token>,
                                    more: seq<Event>, e: Config)
    requires Before(c, handles) && FitProps(props, handles) && props != [] && after != [] && Closes(after[0], w)
    requires c.rest == PrintProps(props, after) && Steps(Back(c, after), more, e)
    ensures Goes(NodeStep(c, !w.InFlow?, w.InTable?), [BareEvent(props, handles)] + more, e)
  {
    NodeContent(c, w, props, handles, after);
    SomeProperty(props, handles);
    BareContent(c.(rest := after), w, AnchorIn(props), TagIn(props, handles));
    GoesOne(BareEvent(props, handles), Back(c, after), more, e);
  }

  lemma {:induction false} BareContent(c: Config, w: Where, anchor: Option<string>, tag: Option<string>)
    requires c.rest != [] && c.states != [] && Closes(c.rest[0], w) && (anchor.Some? || tag.Some?)
    ensures ContentStep(c, !w.InFlow?, w.InTable?, anchor, tag) ==
            Made(Scalar(anchor, tag, "", Implicit(tag), false, 1), Returned(c))
  {}

  lemma {:induction false} SomeProperty(props: seq<Property>, handles: Handles)
    requires props != []
    ensures AnchorIn(props).Some? || TagIn(props, handles).Some?
  {}

  // ---- Collections ----

  /** A token that is not the end of the stream is skipped. */
  lemma {:induction false} SkipsTo(c: Config, t: Token, after: seq<Token>)
    requires c.rest == [t] + after && !c.done && t != StreamEndToken
    ensures Skipped(c) == c.(rest := after)
  {
    assert ([t] + after)[1..] == after;
  }

  /** The collection is over. */
  function Closed(c: Config, after: seq<Token>): Config
    requires c.states != []
  {
    Returned(c.(rest := after, marks := if c.marks == 0 then 0 else c.marks - 1))
  }

  lemma {:induction false} FinishGoes(c: Config, t: Token, x: Event, after: seq<Token>, more: seq<Event>, e: Config)
    requires c.rest == [t] + after && !c.done && t != StreamEndToken && c.states != []
    requires Steps(Closed(c, after), more, e)
    ensures Goes(Made(x, Finished(c)), [x] + more, e)
  {
    SkipsTo(c, t, after);
    GoesOne(x, Closed(c, after), more, e);
  }

  predicate Suits(x: Context, w: Where) {
    match x
    case InBlockSequence => w.InBlock?
    case InIndentless => w.InBlock?
    case InBlockMapping => w.InTable?
    case _ => w.InFlow?
  }

  lemma {:induction false} OpensPresent(t: Token, x: Context, w: Where)
    requires Opens(t, w) && Suits(x, w)
    ensures !Absent(x, t)
  {}

  lemma {:induction false} SavedBack(c: Config, s: State, after: seq<Token>)
    ensures Back(Saved(c, s), after) == c.(rest := after, state := s)
  {
    assert (c.states + [s])[..|c.states|] == c.states;
  }

  lemma {:induction false} ItemGoes(src: Source, c: Config, s: State, w: Where, handles: Handles, after: seq<Token>,
                                    more: seq<Event>, e: Config)
    requires Before(c, handles) && Fits(src, w, handles) && !Missing(src) && after != [] && Closes(after[0], w)
    requires c.rest == Print(src, after) && Steps(c.(rest := after, state := s), more, e)
    ensures Goes(ItemStep(c, s, !w.InFlow?, w.InTable?), Events(src, handles, more), e)
    decreases src, 3
  {
    SavedBack(c, s, after);
    NodeGoes(src, Saved(c, s), w, handles, after, more, e);
  }

  lemma {:induction false} MaybeGoes(src: Source, c: Config, x: Context, s: State, w: Where, handles: Handles,
                                     after: seq<Token>, more: seq<Event>, e: Config)
    requires Before(c, handles) && Fits(src, w, handles) && Suits(x, w)
    requires after != [] && Closes(after[0], w) && Absent(x, after[0])
    requires c.rest == Print(src, after) && Steps(c.(rest := after, state := s), more, e)
    ensures Goes(MaybeItemStep(c, x, s, !w.InFlow?, w.InTable?), Events(src, handles, more), e)
    decreases src, 4
  {
    if Missing(src) {
      PropsOpen([], after);
      assert c.(state := s) == c.(rest := after, state := s);
      GoesOne(EmptyScalar(), c.(state := s), more, e);
    } else {
      FirstOpens(src, w, handles, after);
      OpensPresent(c.rest[0], x, w);
      ItemGoes(src, c, s, w, handles, after, more, e);
    }
  }

  /** A node behind an indicator. */
  lemma {:induction false} AfterGoes(src: Source, c: Config, t: Token, x: Context, s: State, w: Where,
                                     handles: Handles, after: seq<Token>, more: seq<Event>, e: Config)
    requires Before(c, handles) && Fits(src, w, handles) && Suits(x, w) && t != StreamEndToken
    requires after != [] && Closes(after[0], w) && Absent(x, after[0])
    requires c.rest == [t] + Print(src, after) && Steps(c.(rest := after, state := s), more, e)
    ensures Goes(ItemAfterStep(c, x, s, !w.InFlow?, w.InTable?), Events(src, handles, more), e)
    decreases src, 5
  {
    SkipsTo(c, t, Print(src, after));
    MaybeGoes(src, c.(rest := Print(src, after)), x, s, w, handles, after, more, e);
  }

  /** What is done inside a collection. */
  lemma {:induction false} EntryStep(d: Config)
    requires IsCollection(d.state) && d.states != [] && !d.done
    ensures d.state == BlockSequenceEntryState ==> StepOf(d) == BlockSequenceStep(d)
    ensures d.state == IndentlessSequenceEntryState ==> StepOf(d) == IndentlessStep(d)
    ensures d.state == BlockMappingKeyState ==> StepOf(d) == BlockKeyStep(d)
    ensures d.state == BlockMappingValueState ==> StepOf(d) == BlockValueStep(d)
    ensures d.state == FlowSequenceEntryState ==> StepOf(d) == FlowSequenceStep(d, false)
    ensures d.state == FlowSequenceEntryMappingKeyState ==> StepOf(d) == PairKeyStep(d)
    ensures d.state == FlowSequenceEntryMappingValueState ==> StepOf(d) == PairValueStep(d)
    ensures d.state == FlowSequenceEntryMappingEndState ==> StepOf(d) == PairEndStep(d)
    ensures d.state == FlowMappingKeyState ==> StepOf(d) == FlowKeyStep(d, false)
    ensures d.state == FlowMappingValueState ==> StepOf(d) == FlowValueStep(d, false)
    ensures d.state == FlowMappingEmptyValueState ==> StepOf(d) == FlowValueStep(d, true)
  {}

  // ---- Block sequences ----

  lemma {:induction false} BlockEntrySteps(d: Config, events: seq<Event>, e: Config)
    requires d.state == BlockSequenceEntryState && d.states != [] && !d.done && Goes(BlockSequenceStep(d), events, e)
    ensures Steps(d, events, e)
  {
    EntryStep(d);
    GoesSteps(d, BlockSequenceStep(d), events, e);
  }

  lemma {:induction false} BlockItemsFirst(items: Items, after: seq<Token>)
    requires after != []
    ensures var ts := PrintBlockItems(items, after); ts != [] && (ts[0] == BlockEntryToken || ts[0] == after[0])
  {}

  /** One item. */
  lemma {:induction false} BlockItemGoes(head: Source, c: Config, handles: Handles, after: seq<Token>,
                                         more: seq<Event>, e: Config)
    requires Before(c, handles) && Fits(head, InBlock, handles)
    requires after != [] && (after[0] == BlockEntryToken || after[0] == BlockEndToken)
    requires c.rest == [BlockEntryToken] + Print(head, after)
    requires Steps(c.(rest := after, state := BlockSequenceEntryState), more, e)
    ensures Goes(BlockSequenceStep(c), Events(head, handles, more), e)
    decreases head, 6
  {
    AfterGoes(head, c, BlockEntryToken, InBlockSequence, BlockSequenceEntryState, InBlock, handles, after, more, e);
  }

  lemma {:induction false} BlockItemsGo(items: Items, c: Config, handles: Handles, end: seq<Token>, after: seq<Token>,
                                        more: seq<Event>, e: Config)
    requires Before(c, handles) && FitItems(items, InBlock, handles) && end == [BlockEndToken] + after
    requires c.rest == PrintBlockItems(items, end) && Steps(Closed(c, after), more, e)
    ensures Goes(BlockSequenceStep(c), ItemEvents(items, handles, [SequenceEnd] + more), e)
    decreases items, 1
  {
    match items
    case NoItems => FinishGoes(c, BlockEndToken, SequenceEnd, after, more, e);
    case Item(head, tail) =>
      var rest, next := PrintBlockItems(tail, end), ItemEvents(tail, handles, [SequenceEnd] + more);
      var d := c.(rest := rest, state := BlockSequenceEntryState);
      BlockItemsFirst(tail, end);
      BlockItemsGo(tail, d, handles, end, after, more, e);
      BlockEntrySteps(d, next, e);
      BlockItemGoes(head, c, handles, rest, next, e);
  }

  lemma {:induction false} IndentlessSteps(d: Config, events: seq<Event>, e: Config)
    requires d.state == IndentlessSequenceEntryState && d.states != [] && !d.done && Goes(IndentlessStep(d), events, e)
    ensures Steps(d, events, e)
  {
    EntryStep(d);
    GoesSteps(d, IndentlessStep(d), events, e);
  }

  lemma {:induction false} IndentlessItemGoes(head: Source, c: Config, handles: Handles, after: seq<Token>,
                                              more: seq<Event>, e: Config)
    requires Before(c, handles) && Fits(head, InBlock, handles)
    requires after != [] && (after[0] == BlockEntryToken || Closes(after[0], InTable))
    requires c.rest == [BlockEntryToken] + Print(head, after)
    requires Steps(c.(rest := after, state := IndentlessSequenceEntryState), more, e)
    ensures Goes(IndentlessStep(c), Events(head, handles, more), e)
    decreases head, 6
  {
    AfterGoes(head, c, BlockEntryToken, InIndentless, IndentlessSequenceEntryState, InBlock, handles, after, more, e);
  }

  lemma {:induction false} IndentlessGo(items: Items, c: Config, handles: Handles, after: seq<Token>,
                                        more: seq<Event>, e: Config)
    requires Before(c, handles) && FitItems(items, InBlock, handles) && after != [] && Closes(after[0], InTable)
    requires c.rest == PrintBlockItems(items, after) && Steps(Back(c, after), more, e)
    ensures Goes(IndentlessStep(c), ItemEvents(items, handles, [SequenceEnd] + more), e)
    decreases items, 1
  {
    match items
    case NoItems =>
      assert c == c.(rest := after);
      GoesOne(SequenceEnd, Back(c, after), more, e);
    case Item(head, tail) =>
      var rest, next := PrintBlockItems(tail, after), ItemEvents(tail, handles, [SequenceEnd] + more);
      var d := c.(rest := rest, state := IndentlessSequenceEntryState);
      BlockItemsFirst(tail, after);
      IndentlessGo(tail, d, handles, after, more, e);
      IndentlessSteps(d, next, e);
      IndentlessItemGoes(head, c, handles, rest, next, e);
  }

  // ---- Block mappings ----

  lemma {:induction false} BlockKeySteps(d: Config, events: seq<Event>, e: Config)
    requires d.state == BlockMappingKeyState && d.states != [] && !d.done && Goes(BlockKeyStep(d), events, e)
    ensures Steps(d, events, e)
  {
    EntryStep(d);
    GoesSteps(d, BlockKeyStep(d), events, e);
  }

  lemma {:induction false} BlockValueSteps(d: Config, events: seq<Event>, e: Config)
    requires d.state == BlockMappingValueState && d.states != [] && !d.done && Goes(BlockValueStep(d), events, e)
    ensures Steps(d, events, e)
  {
    EntryStep(d);
    GoesSteps(d, BlockValueStep(d), events, e);
  }

  lemma {:induction false} BlockFieldsFirst(fields: Fields, after: seq<Token>)
    requires after != []
    ensures var ts := PrintBlockFields(fields, after); ts != [] && (ts[0] == KeyToken || ts[0] == after[0])
  {}

  lemma {:induction false} BlockValueGoes(valued: bool, value: Source, c: Config, handles: Handles, after: seq<Token>,
                                          more: seq<Event>, e: Config)
    requires Before(c, handles) && Fits(value, InTable, handles) && (!valued ==> Missing(value))
    requires after != [] && (after[0] == KeyToken || after[0] == BlockEndToken)
    requires c.rest == PrintValue(valued, value, after)
    requires Steps(c.(rest := after, state := BlockMappingKeyState), more, e)
    ensures Goes(BlockValueStep(c), Events(value, handles, more), e)
    decreases value, 6
  {
    if valued {
      AfterGoes(value, c, ValueToken, InBlockMapping, BlockMappingKeyState, InTable, handles, after, more, e);
    } else {
      assert c.(state := BlockMappingKeyState) == c.(rest := after, state := BlockMappingKeyState);
      GoesOne(EmptyScalar(), c.(state := BlockMappingKeyState), more, e);
    }
  }

  lemma {:induction false} BlockKeyGoes(key: Source, c: Config, handles: Handles, after: seq<Token>,
                                        more: seq<Event>, e: Config)
    requires Before(c, handles) && Fits(key, InTable, handles) && after != [] && Closes(after[0], InTable)
    requires c.rest == [KeyToken] + Print(key, after)
    requires Steps(c.(rest := after, state := BlockMappingValueState), more, e)
    ensures Goes(BlockKeyStep(c), Events(key, handles, more), e)
    decreases key, 6
  {
    AfterGoes(key, c, KeyToken, InBlockMapping, BlockMappingValueState, InTable, handles, after, more, e);
  }

  lemma {:induction false} ValueFirst(valued: bool, value: Source, after: seq<Token>)
    requires after != []
    ensures var ts := PrintValue(valued, value, after); ts != [] && (ts[0] == ValueToken || ts[0] == after[0])
  {}

  /** One pair. */
  lemma {:induction false} BlockFieldGoes(fields: Fields, c: Config, handles: Handles, after: seq<Token>,
                                          more: seq<Event>, e: Config)
    requires Before(c, handles) && fields.Field? && FitFields(fields, false, handles)
    requires after != [] && (after[0] == KeyToken || after[0] == BlockEndToken)
    requires c.rest == [KeyToken] + Print(fields.key, PrintValue(fields.valued, fields.value, after))
    requires Steps(c.(rest := after, state := BlockMappingKeyState), more, e)
    ensures Goes(BlockKeyStep(c), Events(fields.key, handles, Events(fields.value, handles, more)), e)
    decreases fields, 0
  {
    var rest, next := PrintValue(fields.valued, fields.value, after), Events(fields.value, handles, more);
    var d := c.(rest := rest, state := BlockMappingValueState);
    ValueFirst(fields.valued, fields.value, after);
    BlockValueGoes(fields.valued, fields.value, d, handles, after, more, e);
    BlockValueSteps(d, next, e);
    BlockKeyGoes(fields.key, c, handles, rest, next, e);
  }

  lemma {:induction false} BlockFieldsGo(fields: Fields, c: Config, handles: Handles, end: seq<Token>,
                                         after: seq<Token>, more: seq<Event>, e: Config)
    requires Before(c, handles) && FitFields(fields, false, handles) && end == [BlockEndToken] + after
    requires c.rest == PrintBlockFields(fields, end) && Steps(Closed(c, after), more, e)
    ensures Goes(BlockKeyStep(c), FieldEvents(fields, handles, [MappingEnd] + more), e)
    decreases fields, 1
  {
    match fields
    case NoFields => FinishGoes(c, BlockEndToken, MappingEnd, after, more, e);
    case Field(_, _, _, _, tail) =>
      var rest, next := PrintBlockFields(tail, end), FieldEvents(tail, handles, [MappingEnd] + more);
      var d := c.(rest := rest, state := BlockMappingKeyState);
      BlockFieldsFirst(tail, end);
      BlockFieldsGo(tail, d, handles, end, after, more, e);
      BlockKeySteps(d, next, e);
      BlockFieldGoes(fields, c, handles, rest, next, e);
  }

  // ---- Flow sequences ----

  lemma {:induction false} FlowEntrySteps(d: Config, events: seq<Event>, e: Config)
    requires d.state == FlowSequenceEntryState && d.states != [] && !d.done
    requires Goes(FlowSequenceStep(d, false), events, e)
    ensures Steps(d, events, e)
  {
    EntryStep(d);
    GoesSteps(d, FlowSequenceStep(d, false), events, e);
  }

  lemma {:induction false} FlowItemsFirst(items: Items, after: seq<Token>)
    requires after != []
    ensures var ts := PrintFlowItems(items, false, after); ts != [] && (ts[0] == FlowEntryToken || ts[0] == after[0])
  {}

  /** The comma before all entries but the first. */
  lemma {:induction false} CommaPassed(c: Config, first: bool, end: Token, entry: seq<Token>)
    requires !c.done && entry != [] && c.rest == if first then entry else [FlowEntryToken] + entry
    requires end != FlowEntryToken
    ensures CommaSkipped(c, first, end) == Some(c.(rest := entry))
  {
    if !first {
      SkipsTo(c, FlowEntryToken, entry);
    } else {
      assert c.(rest := entry) == c;
    }
  }

  lemma {:induction false} FlowSequenceEntered(c: Config, first: bool, entry: seq<Token>)
    requires c.states != [] && !c.done && entry != [] && c.rest == if first then entry else [FlowEntryToken] + entry
    ensures FlowSequenceStep(c, first) == FlowItemStep(c.(rest := entry))
  {
    CommaPassed(c, first, FlowSequenceEndToken, entry);
  }

  lemma {:induction false} FlowMappingEntered(c: Config, first: bool, entry: seq<Token>)
    requires c.states != [] && !c.done && entry != [] && c.rest == if first then entry else [FlowEntryToken] + entry
    ensures FlowKeyStep(c, first) == FlowFieldStep(c.(rest := entry))
  {
    CommaPassed(c, first, FlowMappingEndToken, entry);
  }

  lemma {:induction false} CommaOrEnd(c: Config, first: bool, comma: bool, t: Token, end: seq<Token>)
    requires !c.done && (comma ==> !first) && end != [] && end[0] == t && t != FlowEntryToken
    requires c.rest == PrintComma(comma, end)
    ensures CommaSkipped(c, first, t) == Some(c.(rest := end))
  {
    if comma {
      CommaPassed(c, first, t, end);
    } else {
      assert c.(rest := end) == c;
    }
  }

  lemma {:induction false} FlowSequenceDone(c: Config, first: bool, comma: bool, after: seq<Token>, more: seq<Event>,
                                            e: Config)
    requires c.states != [] && !c.done && (comma ==> !first)
    requires c.rest == PrintComma(comma, [FlowSequenceEndToken] + after) && Steps(Closed(c, after), more, e)
    ensures Goes(FlowSequenceStep(c, first), [SequenceEnd] + more, e)
  {
    var d := c.(rest := [FlowSequenceEndToken] + after);
    CommaOrEnd(c, first, comma, FlowSequenceEndToken, d.rest);
    FinishGoes(d, FlowSequenceEndToken, SequenceEnd, after, more, e);
  }

  lemma {:induction false} FlowMappingDone(c: Config, first: bool, comma: bool, after: seq<Token>, more: seq<Event>,
                                           e: Config)
    requires c.states != [] && !c.done && (comma ==> !first)
    requires c.rest == PrintComma(comma, [FlowMappingEndToken] + after) && Steps(Closed(c, after), more, e)
    ensures Goes(FlowKeyStep(c, first), [MappingEnd] + more, e)
  {
    var d := c.(rest := [FlowMappingEndToken] + after);
    CommaOrEnd(c, first, comma, FlowMappingEndToken, d.rest);
    FinishGoes(d, FlowMappingEndToken, MappingEnd, after, more, e);
  }

  /** What comes after an entry of a flow sequence. */
  predicate EndsEntry(t: Token) {
    t == FlowEntryToken || t == FlowSequenceEndToken
  }

  lemma {:induction false} FlowItemGoes(head: Source, c: Config, handles: Handles, after: seq<Token>, more: seq<Event>,
                                        e: Config)
    requires Before(c, handles) && Fits(head, InFlow, handles) && !Missing(head) && after != [] && EndsEntry(after[0])
    requires c.rest == Print(head, after) && Steps(c.(rest := after, state := FlowSequenceEntryState), more, e)
    requires c.rest != [] && Opens(c.rest[0], InFlow)
    ensures Goes(FlowItemStep(c), Events(head, handles, more), e)
    decreases head, 4
  {
    ItemGoes(head, c, FlowSequenceEntryState, InFlow, handles, after, more, e);
  }

  lemma {:induction false} PairKeySteps(d: Config, events: seq<Event>, e: Config)
    requires d.state == FlowSequenceEntryMappingKeyState && d.states != [] && !d.done
    requires Goes(PairKeyStep(d), events, e)
    ensures Steps(d, events, e)
  {
    EntryStep(d);
    GoesSteps(d, PairKeyStep(d), events, e);
  }

  lemma {:induction false} PairValueSteps(d: Config, events: seq<Event>, e: Config)
    requires d.state == FlowSequenceEntryMappingValueState && d.states != [] && !d.done
    requires Goes(PairValueStep(d), events, e)
    ensures Steps(d, events, e)
  {
    EntryStep(d);
    GoesSteps(d, PairValueStep(d), events, e);
  }

  lemma {:induction false} PairEndSteps(d: Config, more: seq<Event>, e: Config)
    requires d.state == FlowSequenceEntryMappingEndState && d.states != [] && !d.done && d.rest != []
    requires Steps(d.(state := FlowSequenceEntryState), more, e)
    ensures Steps(d, [MappingEnd] + more, e)
  {
    GoesOne(MappingEnd, d.(state := FlowSequenceEntryState), more, e);
    EntryStep(d);
    GoesSteps(d, PairEndStep(d), [MappingEnd] + more, e);
  }

  lemma {:induction false} PairKeyGoes(key: Source, c: Config, handles: Handles, after: seq<Token>, more: seq<Event>,
                                       e: Config)
    requires Before(c, handles) && Fits(key, InFlow, handles) && !Missing(key)
    requires after != [] && (after[0] == ValueToken || EndsEntry(after[0]))
    requires c.rest == Print(key, after)
    requires Steps(c.(rest := after, state := FlowSequenceEntryMappingValueState), more, e)
    ensures Goes(PairKeyStep(c), Events(key, handles, more), e)
    decreases key, 4
  {
    FirstOpens(key, InFlow, handles, after);
    ItemGoes(key, c, FlowSequenceEntryMappingValueState, InFlow, handles, after, more, e);
  }

  lemma {:induction false} PairValueGoes(valued: bool, value: Source, c: Config, handles: Handles, after: seq<Token>,
                                         more: seq<Event>, e: Config)
    requires Before(c, handles) && Fits(value, InFlow, handles) && (!valued ==> Missing(value))
    requires after != [] && EndsEntry(after[0]) && c.rest == PrintValue(valued, value, after)
    requires Steps(c.(rest := after, state := FlowSequenceEntryMappingEndState), more, e)
    ensures Goes(PairValueStep(c), Events(value, handles, more), e)
    decreases value, 6
  {
    if valued {
      AfterGoes(value, c, ValueToken, InFlowPair, FlowSequenceEntryMappingEndState, InFlow, handles, after, more, e);
    } else {
      var d := c.(state := FlowSequenceEntryMappingEndState);
      assert d == c.(rest := after, state := FlowSequenceEntryMappingEndState);
      GoesOne(EmptyScalar(), d, more, e);
    }
  }

  /** From the key of a single pair to what follows the pair. */
  lemma {:induction false} PairGoes(src: Source, c: Config, handles: Handles, after: seq<Token>, more: seq<Event>,
                                    e: Config)
    requires Before(c, handles) && src.Single? && FitSingle(src, handles) && after != [] && EndsEntry(after[0])
    requires c.rest == Print(src.key, PrintValue(src.valued, src.value, after))
    requires Steps(c.(rest := after, state := FlowSequenceEntryState), more, e)
    ensures Goes(PairKeyStep(c), Events(src.key, handles, Events(src.value, handles, [MappingEnd] + more)), e)
    decreases src, 0
  {
    var rest := PrintValue(src.valued, src.value, after);
    var d1 := c.(rest := rest, state := FlowSequenceEntryMappingValueState);
    var d2 := c.(rest := after, state := FlowSequenceEntryMappingEndState);
    ValueFirst(src.valued, src.value, after);
    PairEndSteps(d2, more, e);
    PairValueGoes(src.valued, src.value, d1, handles, after, [MappingEnd] + more, e);
    PairValueSteps(d1, Events(src.value, handles, [MappingEnd] + more), e);
    PairKeyGoes(src.key, c, handles, rest, Events(src.value, handles, [MappingEnd] + more), e);
  }

  lemma {:induction false} SingleGoes(src: Source, c: Config, handles: Handles, after: seq<Token>, more: seq<Event>,
                                      e: Config)
    requires Before(c, handles) && src.Single? && FitSingle(src, handles) && after != [] && EndsEntry(after[0])
    requires c.rest == Print(src, after) && Steps(c.(rest := after, state := FlowSequenceEntryState), more, e)
    ensures Goes(FlowItemStep(c), Events(src, handles, more), e)
    decreases src, 1
  {
    var rest, next := Print(src.key, PrintValue(src.valued, src.value, after)),
                      Events(src.key, handles, Events(src.value, handles, [MappingEnd] + more));
    var d := c.(rest := rest, state := FlowSequenceEntryMappingKeyState);
    SkipsTo(c, KeyToken, rest);
    PairGoes(src, d, handles, after, more, e);
    PairKeySteps(d, next, e);
    GoesOne(MappingStart(None, None, true, 2), d, next, e);
  }

  lemma {:induction false} HeadOpens(items: Items, handles: Handles, after: seq<Token>)
    requires items.Item? && FitItems(items, InFlow, handles)
    ensures var ts := Print(items.head, after); ts != [] && (items.head.Single? || Opens(ts[0], InFlow))
  {
    if !items.head.Single? {
      FirstOpens(items.head, InFlow, handles, after);
    }
  }

  lemma {:induction false} FlowHeadGoes(items: Items, c: Config, handles: Handles, after: seq<Token>, more: seq<Event>,
                                        e: Config)
    requires Before(c, handles) && items.Item? && FitItems(items, InFlow, handles)
    requires after != [] && EndsEntry(after[0])
    requires c.rest == Print(items.head, after) && Steps(c.(rest := after, state := FlowSequenceEntryState), more, e)
    requires c.rest != [] && (items.head.Single? || Opens(c.rest[0], InFlow))
    ensures Goes(FlowItemStep(c), Events(items.head, handles, more), e)
    decreases items, 0
  {
    if items.head.Single? {
      SingleGoes(items.head, c, handles, after, more, e);
    } else {
      FlowItemGoes(items.head, c, handles, after, more, e);
    }
  }

  lemma {:induction false} FlowItemsGo(items: Items, first: bool, c: Config, handles: Handles, comma: bool,
                                       end: seq<Token>, after: seq<Token>, more: seq<Event>, e: Config)
    requires Before(c, handles) && FitItems(items, InFlow, handles) && (comma ==> items.Item? || !first)
    requires end == PrintComma(comma, [FlowSequenceEndToken] + after)
    requires c.rest == PrintFlowItems(items, first, end) && Steps(Closed(c, after), more, e)
    ensures Goes(FlowSequenceStep(c, first), ItemEvents(items, handles, [SequenceEnd] + more), e)
    decreases items, 1
  {
    match items
    case NoItems => FlowSequenceDone(c, first, comma, after, more, e);
    case Item(head, tail) =>
      var rest, next := PrintFlowItems(tail, false, end), ItemEvents(tail, handles, [SequenceEnd] + more);
      var d := c.(rest := rest, state := FlowSequenceEntryState);
      var c1 := c.(rest := Print(head, rest));
      FlowItemsFirst(tail, end);
      FlowItemsGo(tail, false, d, handles, comma, end, after, more, e);
      FlowEntrySteps(d, next, e);
      HeadOpens(items, handles, rest);
      FlowHeadGoes(items, c1, handles, rest, next, e);
      FlowSequenceEntered(c, first, Print(head, rest));
  }

  // ---- Flow mappings ----

  lemma {:induction false} FlowKeySteps(d: Config, events: seq<Event>, e: Config)
    requires d.state == FlowMappingKeyState && d.states != [] && !d.done && Goes(FlowKeyStep(d, false), events, e)
    ensures Steps(d, events, e)
  {
    EntryStep(d);
    GoesSteps(d, FlowKeyStep(d, false), events, e);
  }

  lemma {:induction false} FlowValueSteps(d: Config, empty: bool, events: seq<Event>, e: Config)
    requires d.state == (if empty then FlowMappingEmptyValueState else FlowMappingValueState)
    requires d.states != [] && !d.done && Goes(FlowValueStep(d, empty), events, e)
    ensures Steps(d, events, e)
  {
    EntryStep(d);
    GoesSteps(d, FlowValueStep(d, empty), events, e);
  }

  lemma {:induction false} FlowFieldsFirst(fields: Fields, after: seq<Token>)
    requires after != []
    ensures var ts := PrintFlowFields(fields, false, after); ts != [] && (ts[0] == FlowEntryToken || ts[0] == after[0])
  {}

  /** What comes after a pair of a flow mapping. */
  predicate EndsPair(t: Token) {
    t == FlowEntryToken || t == FlowMappingEndToken
  }

  lemma {:induction false} FlowNoValueGoes(c: Config, empty: bool, after: seq<Token>, more: seq<Event>, e: Config)
    requires c.rest == after && after != [] && EndsPair(after[0])
    requires Steps(c.(rest := after, state := FlowMappingKeyState), more, e)
    ensures Goes(FlowValueStep(c, empty), [EmptyScalar()] + more, e)
  {
    assert c.(state := FlowMappingKeyState) == c.(rest := after, state := FlowMappingKeyState);
    GoesOne(EmptyScalar(), c.(state := FlowMappingKeyState), more, e);
  }

  lemma {:induction false} FlowValueGoes(valued: bool, value: Source, c: Config, handles: Handles, after: seq<Token>,
                                         more: seq<Event>, e: Config)
    requires Before(c, handles) && Fits(value, InFlow, handles) && (!valued ==> Missing(value))
    requires after != [] && EndsPair(after[0]) && c.rest == PrintValue(valued, value, after)
    requires Steps(c.(rest := after, state := FlowMappingKeyState), more, e)
    ensures Goes(FlowValueStep(c, false), Events(value, handles, more), e)
    decreases value, 6
  {
    if valued {
      AfterGoes(value, c, ValueToken, InFlowMappingValue, FlowMappingKeyState, InFlow, handles, after, more, e);
    } else {
      FlowNoValueGoes(c, false, after, more, e);
    }
  }

  lemma {:induction false} FlowKeyGoes(key: Source, c: Config, handles: Handles, after: seq<Token>, more: seq<Event>,
                                       e: Config)
    requires Before(c, handles) && Fits(key, InFlow, handles)
    requires after != [] && (after[0] == ValueToken || EndsPair(after[0]))
    requires c.rest == [KeyToken] + Print(key, after)
    requires Steps(c.(rest := after, state := FlowMappingValueState), more, e)
    ensures Goes(FlowFieldStep(c), Events(key, handles, more), e)
    decreases key, 6
  {
    AfterGoes(key, c, KeyToken, InFlowMappingKey, FlowMappingValueState, InFlow, handles, after, more, e);
  }

  lemma {:induction false} FlowBareKeyGoes(key: Source, c: Config, handles: Handles, after: seq<Token>,
                                           more: seq<Event>, e: Config)
    requires Before(c, handles) && Fits(key, InFlow, handles) && !Missing(key) && after != [] && EndsPair(after[0])
    requires c.rest == Print(key, after) && Steps(c.(rest := after, state := FlowMappingEmptyValueState), more, e)
    requires c.rest != [] && Opens(c.rest[0], InFlow)
    ensures Goes(FlowFieldStep(c), Events(key, handles, more), e)
    decreases key, 4
  {
    ItemGoes(key, c, FlowMappingEmptyValueState, InFlow, handles, after, more, e);
  }

  /** The tokens of the first pair. */
  function PrintPair(fields: Fields, after: seq<Token>): seq<Token>
    requires fields.Field?
  {
    var entry := Print(fields.key, PrintValue(fields.valued, fields.value, after));
    if fields.marked then [KeyToken] + entry else entry
  }

  lemma {:induction false} PairOpens(fields: Fields, handles: Handles, after: seq<Token>)
    requires fields.Field? && FitFields(fields, true, handles)
    ensures var ts := PrintPair(fields, after); ts != [] && (fields.marked || Opens(ts[0], InFlow))
  {
    if !fields.marked {
      FirstOpens(fields.key, InFlow, handles, PrintValue(fields.valued, fields.value, after));
    }
  }

  lemma {:induction false} FlowPairGoes(fields: Fields, c: Config, handles: Handles, after: seq<Token>,
                                        more: seq<Event>, e: Config)
    requires Before(c, handles) && fields.Field? && FitFields(fields, true, handles)
    requires after != [] && EndsPair(after[0])
    requires c.rest == PrintPair(fields, after) && Steps(c.(rest := after, state := FlowMappingKeyState), more, e)
    requires c.rest != [] && (fields.marked || Opens(c.rest[0], InFlow))
    ensures Goes(FlowFieldStep(c), Events(fields.key, handles, Events(fields.value, handles, more)), e)
    decreases fields, 0
  {
    var next := Events(fields.value, handles, more);
    if fields.marked {
      var rest := PrintValue(fields.valued, fields.value, after);
      var d := c.(rest := rest, state := FlowMappingValueState);
      ValueFirst(fields.valued, fields.value, after);
      FlowValueGoes(fields.valued, fields.value, d, handles, after, more, e);
      FlowValueSteps(d, false, next, e);
      FlowKeyGoes(fields.key, c, handles, rest, next, e);
    } else {
      var d := c.(rest := after, state := FlowMappingEmptyValueState);
      FlowNoValueGoes(d, true, after, more, e);
      FlowValueSteps(d, true, next, e);
      FlowBareKeyGoes(fields.key, c, handles, after, next, e);
    }
  }

  lemma {:induction false} FlowFieldsGo(fields: Fields, first: bool, c: Config, handles: Handles, comma: bool,
                                        end: seq<Token>, after: seq<Token>, more: seq<Event>, e: Config)
    requires Before(c, handles) && FitFields(fields, true, handles) && (comma ==> fields.Field? || !first)
    requires end == PrintComma(comma, [FlowMappingEndToken] + after)
    requires c.rest == PrintFlowFields(fields, first, end) && Steps(Closed(c, after), more, e)
    ensures Goes(FlowKeyStep(c, first), FieldEvents(fields, handles, [MappingEnd] + more), e)
    decreases fields, 1
  {
    match fields
    case NoFields => FlowMappingDone(c, first, comma, after, more, e);
    case Field(_, _, _, _, tail) =>
      var rest, next := PrintFlowFields(tail, false, end), FieldEvents(tail, handles, [MappingEnd] + more);
      var d := c.(rest := rest, state := FlowMappingKeyState);
      var c1 := c.(rest := PrintPair(fields, rest));
      FlowFieldsFirst(tail, end);
      FlowFieldsGo(tail, false, d, handles, comma, end, after, more, e);
      FlowKeySteps(d, next, e);
      PairOpens(fields, handles, rest);
      FlowPairGoes(fields, c1, handles, rest, next, e);
      FlowMappingEntered(c, first, PrintPair(fields, rest));
  }

  // ---- Nodes ----

  /** A collection with a start token. */
  lemma {:induction false} CollectionStarts(c: Config, w: Where, handles: Handles, props: seq<Property>,
                                            body: seq<Token>, first: State)
    requires Before(c, handles) && FitProps(props, handles) && c.rest == PrintProps(props, body)
    requires body != [] && Starts(body[0], !w.InFlow?) == Some(first)
    ensures var tag := TagIn(props, handles);
      NodeStep(c, !w.InFlow?, w.InTable?) ==
      Made(StartEvent(first, Implicit(tag), AnchorIn(props), tag), c.(rest := body, state := first))
  {
    NodeContent(c, w, props, handles, body);
  }

  /** The start token is skipped and the mark kept. */
  lemma {:induction false} BegunAt(d: Config, t: Token, inner: seq<Token>)
    requires d.rest == [t] + inner && IsFirst(d.state) && !d.done && t != StreamEndToken
    ensures Begun(d) == d.(rest := inner, marks := d.marks + 1)
  {
    SkipsTo(d, t, inner);
  }

  lemma {:induction false} FirstStep(d: Config)
    requires IsFirst(d.state) && d.states != [] && !d.done
    ensures d.state == BlockSequenceFirstEntryState ==> StepOf(d) == BlockSequenceStep(Begun(d))
    ensures d.state == BlockMappingFirstKeyState ==> StepOf(d) == BlockKeyStep(Begun(d))
    ensures d.state == FlowSequenceFirstEntryState ==> StepOf(d) == FlowSequenceStep(Begun(d), true)
    ensures d.state == FlowMappingFirstKeyState ==> StepOf(d) == FlowKeyStep(Begun(d), true)
  {}

  lemma {:induction false} ClosedBack(c: Config, first: State, inner: seq<Token>, after: seq<Token>)
    requires c.states != []
    ensures Closed(c.(rest := inner, state := first, marks := c.marks + 1), after) == Back(c, after)
  {}

  lemma {:induction false} BlockListGoes(items: Items, d: Config, handles: Handles, after: seq<Token>,
                                         more: seq<Event>, e: Config)
    requires Before(d, handles) && FitItems(items, InBlock, handles) && d.state == BlockSequenceFirstEntryState
    requires d.rest == PrintList(Block, items, after) && Steps(Back(d, after), more, e)
    ensures Steps(d, ItemEvents(items, handles, [SequenceEnd] + more), e)
    decreases items, 2
  {
    var end := [BlockEndToken] + after;
    var inner := PrintBlockItems(items, end);
    BegunAt(d, BlockSequenceStartToken, inner);
    ClosedBack(d, d.state, inner, after);
    BlockItemsGo(items, Begun(d), handles, end, after, more, e);
    FirstStep(d);
    GoesSteps(d, BlockSequenceStep(Begun(d)), ItemEvents(items, handles, [SequenceEnd] + more), e);
  }

  lemma {:induction false} FlowListGoes(items: Items, d: Config, handles: Handles, after: seq<Token>,
                                        more: seq<Event>, e: Config, comma: bool)
    requires Before(d, handles) && FitItems(items, InFlow, handles) && d.state == FlowSequenceFirstEntryState
    requires (comma ==> items.Item?) && d.rest == PrintList(Flow(comma), items, after) && Steps(Back(d, after), more, e)
    ensures Steps(d, ItemEvents(items, handles, [SequenceEnd] + more), e)
    decreases items, 2
  {
    var end := PrintComma(comma, [FlowSequenceEndToken] + after);
    var inner := PrintFlowItems(items, true, end);
    BegunAt(d, FlowSequenceStartToken, inner);
    ClosedBack(d, d.state, inner, after);
    FlowItemsGo(items, true, Begun(d), handles, comma, end, after, more, e);
    FirstStep(d);
    GoesSteps(d, FlowSequenceStep(Begun(d), true), ItemEvents(items, handles, [SequenceEnd] + more), e);
  }

  lemma {:induction false} IndentlessListGoes(items: Items, d: Config, handles: Handles, after: seq<Token>,
                                              more: seq<Event>, e: Config)
    requires Before(d, handles) && FitItems(items, InBlock, handles) && d.state == IndentlessSequenceEntryState
    requires after != [] && Closes(after[0], InTable)
    requires d.rest == PrintBlockItems(items, after) && Steps(Back(d, after), more, e)
    ensures Steps(d, ItemEvents(items, handles, [SequenceEnd] + more), e)
    decreases items, 2
  {
    IndentlessGo(items, d, handles, after, more, e);
    IndentlessSteps(d, ItemEvents(items, handles, [SequenceEnd] + more), e);
  }

  lemma {:induction false} BlockTableGoes(fields: Fields, d: Config, handles: Handles, after: seq<Token>,
                                          more: seq<Event>, e: Config)
    requires Before(d, handles) && FitFields(fields, false, handles) && d.state == BlockMappingFirstKeyState
    requires d.rest == PrintTable(Block, fields, after) && Steps(Back(d, after), more, e)
    ensures Steps(d, FieldEvents(fields, handles, [MappingEnd] + more), e)
    decreases fields, 2
  {
    var end := [BlockEndToken] + after;
    var inner := PrintBlockFields(fields, end);
    BegunAt(d, BlockMappingStartToken, inner);
    ClosedBack(d, d.state, inner, after);
    BlockFieldsGo(fields, Begun(d), handles, end, after, more, e);
    FirstStep(d);
    GoesSteps(d, BlockKeyStep(Begun(d)), FieldEvents(fields, handles, [MappingEnd] + more), e);
  }

  lemma {:induction false} FlowTableGoes(fields: Fields, d: Config, handles: Handles, after: seq<Token>,
                                         more: seq<Event>, e: Config, comma: bool)
    requires Before(d, handles) && FitFields(fields, true, handles) && d.state == FlowMappingFirstKeyState
    requires (comma ==> fields.Field?) && d.rest == PrintTable(Flow(comma), fields, after)
    requires Steps(Back(d, after), more, e)
    ensures Steps(d, FieldEvents(fields, handles, [MappingEnd] + more), e)
    decreases fields, 2
  {
    var end := PrintComma(comma, [FlowMappingEndToken] + after);
    var inner := PrintFlowFields(fields, true, end);
    BegunAt(d, FlowMappingStartToken, inner);
    ClosedBack(d, d.state, inner, after);
    FlowFieldsGo(fields, true, Begun(d), handles, comma, end, after, more, e);
    FirstStep(d);
    GoesSteps(d, FlowKeyStep(Begun(d), true), FieldEvents(fields, handles, [MappingEnd] + more), e);
  }

  /** The start event, and then what is inside. */
  lemma {:induction false} CollectionGoes(c: Config, w: Where, handles: Handles, props: seq<Property>,
                                          body: seq<Token>, first: State, x: Event, next: seq<Event>, e: Config)
    requires Before(c, handles) && FitProps(props, handles) && c.rest == PrintProps(props, body)
    requires body != [] && Starts(body[0], !w.InFlow?) == Some(first)
    requires x == StartEvent(first, Implicit(TagIn(props, handles)), AnchorIn(props), TagIn(props, handles))
    requires Steps(c.(rest := body, state := first), next, e)
    ensures Goes(NodeStep(c, !w.InFlow?, w.InTable?), [x] + next, e)
  {
    CollectionStarts(c, w, handles, props, body, first);
    GoesOne(x, c.(rest := body, state := first), next, e);
  }

  lemma {:induction false} IndentlessGoes(c: Config, handles: Handles, props: seq<Property>, body: seq<Token>,
                                          x: Event, next: seq<Event>, e: Config)
    requires Before(c, handles) && FitProps(props, handles) && c.rest == PrintProps(props, body)
    requires body != [] && body[0] == BlockEntryToken
    requires var tag := TagIn(props, handles); x == SequenceStart(AnchorIn(props), tag, Implicit(tag), 1)
    requires Steps(c.(rest := body, state := IndentlessSequenceEntryState), next, e)
    ensures Goes(NodeStep(c, true, true), [x] + next, e)
  {
    NodeContent(c, InTable, props, handles, body);
    GoesOne(x, c.(rest := body, state := IndentlessSequenceEntryState), next, e);
  }

  /** The state in which a collection begins. */
  function FirstState(list: bool, form: Form): State {
    match form
    case Block => if list then BlockSequenceFirstEntryState else BlockMappingFirstKeyState
    case Flow(_) => if list then FlowSequenceFirstEntryState else FlowMappingFirstKeyState
    case Indentless => IndentlessSequenceEntryState
  }

  /** What is inside a sequence. */
  lemma {:induction false} InsideList(src: Source, d: Config, w: Where, handles: Handles, after: seq<Token>,
                                      more: seq<Event>, e: Config)
    requires Before(d, handles) && src.List? && Fits(src, w, handles) && after != [] && Closes(after[0], w)
    requires d.state == FirstState(true, src.form) && d.rest == PrintList(src.form, src.items, after)
    requires Steps(Back(d, after), more, e)
    ensures Steps(d, ItemEvents(src.items, handles, [SequenceEnd] + more), e)
    decreases src, 0
  {
    match src.form
    case Block => BlockListGoes(src.items, d, handles, after, more, e);
    case Flow(comma) => FlowListGoes(src.items, d, handles, after, more, e, comma);
    case Indentless => IndentlessListGoes(src.items, d, handles, after, more, e);
  }

  lemma {:induction false} ListStarts(form: Form, items: Items, w: Where, after: seq<Token>)
    requires (form.Block? ==> !w.InFlow?) && (form.Indentless? ==> w.InTable? && items.Item?)
    ensures var body := PrintList(form, items, after);
      && body != []
      && if form.Indentless? then body[0] == BlockEntryToken
         else Starts(body[0], !w.InFlow?) == Some(FirstState(true, form))
  {}

  lemma {:induction false} ListEvent(form: Form, anchor: Option<string>, tag: Option<string>)
    ensures !form.Indentless? ==>
              StartEvent(FirstState(true, form), Implicit(tag), anchor, tag) ==
              SequenceStart(anchor, tag, Implicit(tag), if form.Flow? then 2 else 1)
  {}

  lemma {:induction false} ListGoes(src: Source, c: Config, w: Where, handles: Handles, after: seq<Token>,
                                    more: seq<Event>, e: Config)
    requires Before(c, handles) && src.List? && Fits(src, w, handles) && after != [] && Closes(after[0], w)
    requires c.rest == Print(src, after) && Steps(Back(c, after), more, e)
    ensures Goes(NodeStep(c, !w.InFlow?, w.InTable?), Events(src, handles, more), e)
    decreases src, 1
  {
    var props, body := src.props, PrintList(src.form, src.items, after);
    var next := ItemEvents(src.items, handles, [SequenceEnd] + more);
    var tag := TagIn(props, handles);
    var x := SequenceStart(AnchorIn(props), tag, Implicit(tag), if src.form.Flow? then 2 else 1);
    ListStarts(src.form, src.items, w, after);
    ListEvent(src.form, AnchorIn(props), tag);
    InsideList(src, c.(rest := body, state := FirstState(true, src.form)), w, handles, after, more, e);
    if src.form.Indentless? {
      IndentlessGoes(c, handles, props, body, x, next, e);
    } else {
      CollectionGoes(c, w, handles, props, body, FirstState(true, src.form), x, next, e);
    }
  }

  lemma {:induction false} TableStarts(form: Form, fields: Fields, w: Where, after: seq<Token>)
    requires !form.Indentless? && (form.Block? ==> !w.InFlow?)
    ensures var body := PrintTable(form, fields, after);
            body != [] && Starts(body[0], !w.InFlow?) == Some(FirstState(false, form))
  {}

  /** What is inside a mapping. */
  lemma {:induction false} InsideTable(src: Source, d: Config, w: Where, handles: Handles, after: seq<Token>,
                                       more: seq<Event>, e: Config)
    requires Before(d, handles) && src.Table? && Fits(src, w, handles)
    requires d.state == FirstState(false, src.form) && d.rest == PrintTable(src.form, src.fields, after)
    requires Steps(Back(d, after), more, e)
    ensures Steps(d, FieldEvents(src.fields, handles, [MappingEnd] + more), e)
    decreases src, 0
  {
    if src.form.Flow? {
      FlowTableGoes(src.fields, d, handles, after, more, e, src.form.comma);
    } else {
      BlockTableGoes(src.fields, d, handles, after, more, e);
    }
  }

  lemma {:induction false} TableEvent(form: Form, anchor: Option<string>, tag: Option<string>)
    requires !form.Indentless?
    ensures StartEvent(FirstState(false, form), Implicit(tag), anchor, tag) ==
            MappingStart(anchor, tag, Implicit(tag), if form.Flow? then 2 else 1)
  {}

  lemma {:induction false} TableGoes(src: Source, c: Config, w: Where, handles: Handles, after: seq<Token>,
                                     more: seq<Event>, e: Config)
    requires Before(c, handles) && src.Table? && Fits(src, w, handles)
    requires c.rest == Print(src, after) && Steps(Back(c, after), more, e)
    ensures Goes(NodeStep(c, !w.InFlow?, w.InTable?), Events(src, handles, more), e)
    decreases src, 1
  {
    var props, body := src.props, PrintTable(src.form, src.fields, after);
    var first := FirstState(false, src.form);
    var tag := TagIn(props, handles);
    var x := MappingStart(AnchorIn(props), tag, Implicit(tag), if src.form.Flow? then 2 else 1);
    var next := FieldEvents(src.fields, handles, [MappingEnd] + more);
    TableStarts(src.form, src.fields, w, after);
    InsideTable(src, c.(rest := body, state := first), w, handles, after, more, e);
    TableEvent(src.form, AnchorIn(props), tag);
    CollectionGoes(c, w, handles, props, body, first, x, next, e);
  }

  lemma {:induction false} RefGoes(c: Config, w: Where, name: string, after: seq<Token>, more: seq<Event>, e: Config)
    requires c.states != [] && !c.done && c.rest == [AliasToken(name)] + after && Steps(Back(c, after), more, e)
    ensures Goes(NodeStep(c, !w.InFlow?, w.InTable?), [Alias(name)] + more, e)
  {
    SkipsTo(c, AliasToken(name), after);
    GoesOne(Alias(name), Back(c, after), more, e);
  }

  /** The parser makes of the tokens of a node its events, and is then before what follows. */
  lemma {:induction false} NodeGoes(src: Source, c: Config, w: Where, handles: Handles, after: seq<Token>,
                                    more: seq<Event>, e: Config)
    requires Before(c, handles) && Fits(src, w, handles) && !Missing(src) && after != [] && Closes(after[0], w)
    requires c.rest == Print(src, after) && Steps(Back(c, after), more, e)
    ensures Goes(NodeStep(c, !w.InFlow?, w.InTable?), Events(src, handles, more), e)
    decreases src, 2
  {
    match src
    case Ref(name) => RefGoes(c, w, name, after, more, e);
    case Text(props, text, style) => TextGoes(c, w, handles, props, text, style, after, more, e);
    case Bare(props) => BareGoes(c, w, handles, props, after, more, e);
    case List(_, _, _) => ListGoes(src, c, w, handles, after, more, e);
    case Table(_, _, _) => TableGoes(src, c, w, handles, after, more, e);
  }
}
