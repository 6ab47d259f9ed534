/** The parser as a machine on values: what one call makes of the tokens that are left.  The class in YamlParser does
    these steps in place. */
module YamlSteps {
  import opened Options
  import opened YamlEvents

  datatype Token =
    | StreamStartToken
    | StreamEndToken
    | VersionDirectiveToken(major: int, minor: int)
    | TagDirectiveToken(handle: string, prefix: string)
    | DocumentStartToken
    | DocumentEndToken
    | BlockSequenceStartToken
    | BlockMappingStartToken
    | BlockEndToken
    | FlowSequenceStartToken
    | FlowSequenceEndToken
    | FlowMappingStartToken
    | FlowMappingEndToken
    | BlockEntryToken
    | FlowEntryToken
    | KeyToken
    | ValueToken
    | AliasToken(value: string)
    | AnchorToken(value: string)
    | TagToken(handle: string, suffix: string)
    | ScalarToken(value: string, style: nat)

  datatype State =
    | StreamStartState
    | ImplicitDocumentStartState
    | DocumentStartState
    | DocumentContentState
    | DocumentEndState
    | BlockNodeState
    | BlockSequenceFirstEntryState
    | BlockSequenceEntryState
    | IndentlessSequenceEntryState
    | BlockMappingFirstKeyState
    | BlockMappingKeyState
    | BlockMappingValueState
    | FlowSequenceFirstEntryState
    | FlowSequenceEntryState
    | FlowSequenceEntryMappingKeyState
    | FlowSequenceEntryMappingValueState
    | FlowSequenceEntryMappingEndState
    | FlowMappingFirstKeyState
    | FlowMappingKeyState
    | FlowMappingValueState
    | FlowMappingEmptyValueState
    | EndState

  const PLAIN_SCALAR_STYLE: nat := 1
  const BLOCK_STYLE: nat := 1
  const FLOW_STYLE: nat := 2

  /** The states inside a collection. */
  predicate IsCollection(s: State) {
    !s.StreamStartState? && !s.ImplicitDocumentStartState? && !s.DocumentStartState? && !s.DocumentContentState?
    && !s.DocumentEndState? && !s.BlockNodeState? && !s.EndState?
  }

  predicate IsBlock(s: State) {
    || s == BlockSequenceFirstEntryState || s == BlockSequenceEntryState || s == IndentlessSequenceEntryState
    || s == BlockMappingFirstKeyState || s == BlockMappingKeyState || s == BlockMappingValueState
  }

  predicate IsFirst(s: State) {
    || s == BlockSequenceFirstEntryState || s == BlockMappingFirstKeyState
    || s == FlowSequenceFirstEntryState || s == FlowMappingFirstKeyState
  }

  /** The token that a collection state skips when it is entered. */
  function StartToken(s: State): Token
    requires IsFirst(s)
  {
    match s
    case BlockSequenceFirstEntryState => BlockSequenceStartToken
    case BlockMappingFirstKeyState => BlockMappingStartToken
    case FlowSequenceFirstEntryState => FlowSequenceStartToken
    case _ => FlowMappingStartToken
  }

  /** The state of the collection that a token starts; block collections are not allowed in flow ones. */
  function Starts(t: Token, block: bool): (s: Option<State>)
    ensures s.Some? ==> IsFirst(s.value) && t == StartToken(s.value)
  {
    match t
    case FlowSequenceStartToken => Some(FlowSequenceFirstEntryState)
    case FlowMappingStartToken => Some(FlowMappingFirstKeyState)
    case BlockSequenceStartToken => if block then Some(BlockSequenceFirstEntryState) else None
    case BlockMappingStartToken => if block then Some(BlockMappingFirstKeyState) else None
    case _ => None
  }

  /** Where an indicator can stand without a node after it. */
  datatype Context =
    | InBlockSequence | InIndentless | InBlockMapping | InFlowMappingKey | InFlowMappingValue | InFlowPair

  /** The next token shows that the node is left out. */
  predicate Absent(c: Context, t: Token) {
    match c
    case InBlockSequence => t.BlockEntryToken? || t.BlockEndToken?
    case InIndentless => t.BlockEntryToken? || t.KeyToken? || t.ValueToken? || t.BlockEndToken?
    case InBlockMapping => t.KeyToken? || t.ValueToken? || t.BlockEndToken?
    case InFlowMappingKey => t.ValueToken? || t.FlowEntryToken? || t.FlowMappingEndToken?
    case InFlowMappingValue => t.FlowEntryToken? || t.FlowMappingEndToken?
    case InFlowPair => t.FlowEntryToken? || t.FlowSequenceEndToken?
  }

  datatype TagDirective = TagDirective(handle: string, prefix: string)

  function EmptyScalar(): Event {
    Scalar(None, None, "", true, false, PLAIN_SCALAR_STYLE)
  }

  /** All that decides what the parser does: the tokens that are left, the state, the states to return to, the tag
      directives of the document, whether the last token skipped was the end of the stream, and how many marks of
      collections are kept. */
  datatype Config =
    Config(rest: seq<Token>, state: State, states: seq<State>, directives: seq<TagDirective>, done: bool, marks: nat)

  /** An event and what is left, an error, or nothing more to do. */
  datatype Step = Made(event: Event, next: Config) | Broken | Idle

  function Skipped(c: Config): Config
    requires c.rest != []
  {
    c.(rest := c.rest[1..], done := c.rest[0] == StreamEndToken)
  }

  function Returned(c: Config): Config
    requires c.states != []
  {
    c.(state := c.states[|c.states| - 1], states := c.states[..|c.states| - 1])
  }

  /** A collection ends: its end token, its state and its mark go. */
  function Finished(c: Config): Config
    requires c.rest != [] && c.states != []
  {
    var d := Returned(Skipped(c));
    d.(marks := if d.marks == 0 then 0 else d.marks - 1)
  }

  function Saved(c: Config, s: State): Config {
    c.(states := c.states + [s])
  }

  // ---- Nodes ----

  datatype Header = Header(next: Config, anchor: Option<string>, tag: Option<TagDirective>)

  /** Anchor and tag in either order, each at most once; another token has to follow. */
  function ReadHeader(c: Config): (r: Option<Header>)
    requires c.rest != []
    ensures r.Some? ==> r.value.next.rest != [] && r.value.next.states == c.states
  {
    var t := c.rest[0];
    if t.AnchorToken? then
      var c1 := Skipped(c);
      if c1.rest == [] then None
      else if c1.rest[0].TagToken? then
        var c2 := Skipped(c1);
        if c2.rest == [] then None
        else Some(Header(c2, Some(t.value), Some(TagDirective(c1.rest[0].handle, c1.rest[0].suffix))))
      else Some(Header(c1, Some(t.value), None))
    else if t.TagToken? then
      var c1 := Skipped(c);
      var tag := TagDirective(t.handle, t.suffix);
      if c1.rest == [] then None
      else if c1.rest[0].AnchorToken? then
        var c2 := Skipped(c1);
        if c2.rest == [] then None else Some(Header(c2, Some(c1.rest[0].value), Some(tag)))
      else Some(Header(c1, None, Some(tag)))
    else Some(Header(c, None, None))
  }

  /** The prefix of a handle. */
  function Lookup(ds: seq<TagDirective>, handle: string): Option<string> {
    if ds == [] then None else if ds[0].handle == handle then Some(ds[0].prefix) else Lookup(ds[1..], handle)
  }

  /** A tag is its suffix, or the prefix of its handle and its suffix. */
  function Resolved(ds: seq<TagDirective>, tag: TagDirective): Option<string> {
    if tag.handle == "" then Some(tag.prefix)
    else
      var prefix := Lookup(ds, tag.handle);
      if prefix.None? then None else Some(prefix.value + tag.prefix)
  }

  datatype Decorated = Decorated(next: Config, anchor: Option<string>, tag: Option<string>)

  function Decoration(c: Config): (r: Option<Decorated>)
    requires c.rest != []
    ensures r.Some? ==> r.value.next.rest != [] && r.value.next.states == c.states
  {
    var h := ReadHeader(c);
    if h.None? then None
    else if h.value.tag.None? then Some(Decorated(h.value.next, h.value.anchor, None))
    else
      var tag := Resolved(c.directives, h.value.tag.value);
      if tag.None? then None else Some(Decorated(h.value.next, h.value.anchor, tag))
  }

  function NodeStep(c: Config, block: bool, indentless: bool): Step
    requires c.states != []
  {
    if c.rest == [] then Broken
    else if c.rest[0].AliasToken? then Made(Alias(c.rest[0].value), Returned(Skipped(c)))
    else
      var d := Decoration(c);
      if d.None? then Broken else ContentStep(d.value.next, block, indentless, d.value.anchor, d.value.tag)
  }

  function ContentStep(c: Config, block: bool, indentless: bool, anchor: Option<string>, tag: Option<string>): Step
    requires c.rest != [] && c.states != []
  {
    var t := c.rest[0];
    var implicit := tag.None? || tag.value == "";
    if indentless && t.BlockEntryToken? then
      Made(SequenceStart(anchor, tag, implicit, BLOCK_STYLE), c.(state := IndentlessSequenceEntryState))
    else if t.ScalarToken? then Made(ScalarEvent(t, anchor, tag), Returned(Skipped(c)))
    else if Starts(t, block).Some? then
      var first := Starts(t, block).value;
      Made(StartEvent(first, implicit, anchor, tag), c.(state := first))
    else if anchor.Some? || tag.Some? then
      Made(Scalar(anchor, tag, "", implicit, false, PLAIN_SCALAR_STYLE), Returned(c))
    else Broken
  }

  function ScalarEvent(t: Token, anchor: Option<string>, tag: Option<string>): Event
    requires t.ScalarToken?
  {
    var plain := (t.style == PLAIN_SCALAR_STYLE && tag.None?) || (tag.Some? && tag.value == "!");
    Scalar(anchor, tag, t.value, plain, !plain && tag.None?, t.style)
  }

  function StartEvent(first: State, implicit: bool, anchor: Option<string>, tag: Option<string>): Event
    requires IsFirst(first)
  {
    match first
    case FlowSequenceFirstEntryState => SequenceStart(anchor, tag, implicit, FLOW_STYLE)
    case BlockSequenceFirstEntryState => SequenceStart(anchor, tag, implicit, BLOCK_STYLE)
    case FlowMappingFirstKeyState => MappingStart(anchor, tag, implicit, FLOW_STYLE)
    case _ => MappingStart(anchor, tag, implicit, BLOCK_STYLE)
  }

  /** A node after which the parser goes on in state `s`. */
  function ItemStep(c: Config, s: State, block: bool, indentless: bool): Step {
    NodeStep(Saved(c, s), block, indentless)
  }

  /** A node that is left out. */
  function NoItemStep(c: Config, s: State): Step {
    Made(EmptyScalar(), c.(state := s))
  }

  function MaybeItemStep(c: Config, x: Context, s: State, block: bool, indentless: bool): Step {
    if c.rest == [] then Broken
    else if Absent(x, c.rest[0]) then NoItemStep(c, s)
    else ItemStep(c, s, block, indentless)
  }

  /** An indicator is skipped; the node after it may be left out. */
  function ItemAfterStep(c: Config, x: Context, s: State, block: bool, indentless: bool): Step
    requires c.rest != []
  {
    MaybeItemStep(Skipped(c), x, s, block, indentless)
  }

  // ---- Collections ----

  function BlockSequenceStep(c: Config): Step
    requires c.states != []
  {
    if c.rest == [] then Broken
    else if c.rest[0].BlockEntryToken? then ItemAfterStep(c, InBlockSequence, BlockSequenceEntryState, true, false)
    else if c.rest[0].BlockEndToken? then Made(SequenceEnd, Finished(c))
    else Broken
  }

  function IndentlessStep(c: Config): Step
    requires c.states != []
  {
    if c.rest == [] then Broken
    else if c.rest[0].BlockEntryToken? then ItemAfterStep(c, InIndentless, IndentlessSequenceEntryState, true, false)
    else Made(SequenceEnd, Returned(c))
  }

  function BlockKeyStep(c: Config): Step
    requires c.states != []
  {
    if c.rest == [] then Broken
    else if c.rest[0].KeyToken? then ItemAfterStep(c, InBlockMapping, BlockMappingValueState, true, true)
    else if c.rest[0].BlockEndToken? then Made(MappingEnd, Finished(c))
    else Broken
  }

  function BlockValueStep(c: Config): Step {
    if c.rest == [] then Broken
    else if c.rest[0].ValueToken? then ItemAfterStep(c, InBlockMapping, BlockMappingKeyState, true, true)
    else NoItemStep(c, BlockMappingKeyState)
  }

  /** Between two entries of a flow collection there is a comma. */
  function CommaSkipped(c: Config, first: bool, end: Token): (r: Option<Config>)
    ensures r.Some? ==> r.value.rest != [] && r.value.states == c.states
  {
    if c.rest == [] then None
    else if c.rest[0] == end || first then Some(c)
    else if c.rest[0] != FlowEntryToken || |c.rest| == 1 then None
    else Some(Skipped(c))
  }

  function FlowSequenceStep(c: Config, first: bool): Step
    requires c.states != []
  {
    var r := CommaSkipped(c, first, FlowSequenceEndToken);
    if r.None? then Broken else FlowItemStep(r.value)
  }

  function FlowItemStep(c: Config): Step
    requires c.rest != [] && c.states != []
  {
    if c.rest[0] == KeyToken then
      Made(MappingStart(None, None, true, FLOW_STYLE), Skipped(c).(state := FlowSequenceEntryMappingKeyState))
    else if c.rest[0] != FlowSequenceEndToken then ItemStep(c, FlowSequenceEntryState, false, false)
    else Made(SequenceEnd, Finished(c))
  }

  function PairKeyStep(c: Config): Step {
    if c.rest == [] then Broken
    else if c.rest[0] != ValueToken && c.rest[0] != FlowEntryToken && c.rest[0] != FlowSequenceEndToken then
      ItemStep(c, FlowSequenceEntryMappingValueState, false, false)
    else NoItemStep(Skipped(c), FlowSequenceEntryMappingValueState)
  }

  function PairValueStep(c: Config): Step {
    if c.rest == [] then Broken
    else if c.rest[0] == ValueToken then ItemAfterStep(c, InFlowPair, FlowSequenceEntryMappingEndState, false, false)
    else NoItemStep(c, FlowSequenceEntryMappingEndState)
  }

  function PairEndStep(c: Config): Step {
    if c.rest == [] then Broken else Made(MappingEnd, c.(state := FlowSequenceEntryState))
  }

  function FlowKeyStep(c: Config, first: bool): Step
    requires c.states != []
  {
    var r := CommaSkipped(c, first, FlowMappingEndToken);
    if r.None? then Broken else FlowFieldStep(r.value)
  }

  function FlowFieldStep(c: Config): Step
    requires c.rest != [] && c.states != []
  {
    if c.rest[0] == KeyToken then ItemAfterStep(c, InFlowMappingKey, FlowMappingValueState, false, false)
    else if c.rest[0] != FlowMappingEndToken then ItemStep(c, FlowMappingEmptyValueState, false, false)
    else Made(MappingEnd, Finished(c))
  }

  function FlowValueStep(c: Config, empty: bool): Step {
    if c.rest == [] then Broken
    else if !empty && c.rest[0] == ValueToken then
      ItemAfterStep(c, InFlowMappingValue, FlowMappingKeyState, false, false)
    else NoItemStep(c, FlowMappingKeyState)
  }

  // ---- Stream and documents ----

  predicate IsDirective(t: Token) {
    t.VersionDirectiveToken? || t.TagDirectiveToken?
  }

  function Defaulted(ds: seq<TagDirective>, d: TagDirective): seq<TagDirective> {
    if Lookup(ds, d.handle).Some? then ds else ds + [d]
  }

  function WithDefaults(ds: seq<TagDirective>): seq<TagDirective> {
    Defaulted(Defaulted(ds, TagDirective("!", "!")), TagDirective("!!", "tag:yaml.org,2002:"))
  }

  /** The directives before a document: at most one of the version, 1.1 or 1.2, and one for each handle. */
  function Directed(c: Config, version: bool): (r: Option<Config>)
    ensures r.Some? ==> r.value.rest != [] && r.value.states == c.states && !IsDirective(r.value.rest[0])
    decreases |c.rest|
  {
    if c.rest == [] then None
    else
      match c.rest[0]
      case VersionDirectiveToken(major, minor) =>
        if version || major != 1 || (minor != 1 && minor != 2) then None else Directed(Skipped(c), true)
      case TagDirectiveToken(handle, prefix) =>
        if Lookup(c.directives, handle).Some? then None
        else Directed(Skipped(c.(directives := c.directives + [TagDirective(handle, prefix)])), version)
      case _ => Some(c.(directives := WithDefaults(c.directives)))
  }

  function EndsSkipped(c: Config): (r: Option<Config>)
    ensures r.Some? ==> r.value.rest != [] && r.value.states == c.states
    decreases |c.rest|
  {
    if c.rest == [] then None
    else if c.rest[0] == DocumentEndToken then EndsSkipped(Skipped(c))
    else Some(c)
  }

  function StreamStep(c: Config): Step {
    if c.rest == [] || c.rest[0] != StreamStartToken then Broken
    else Made(StreamStart, Skipped(c).(state := ImplicitDocumentStartState))
  }

  function DocumentStep(c: Config, implicit: bool): Step {
    var r := if implicit then Some(c) else EndsSkipped(c);
    if r.None? || r.value.rest == [] then Broken else DocumentOrEndStep(r.value, implicit)
  }

  function DocumentOrEndStep(c: Config, implicit: bool): Step
    requires c.rest != []
  {
    var t := c.rest[0];
    if t == StreamEndToken then Made(StreamEnd, Skipped(c).(state := EndState))
    else if implicit && !IsDirective(t) && t != DocumentStartToken then
      var r := Directed(c, false);
      if r.None? then Broken else Made(DocumentStart(true), Opened(r.value, BlockNodeState))
    else ExplicitStep(c)
  }

  function ExplicitStep(c: Config): Step {
    var r := Directed(c, false);
    if r.None? || r.value.rest[0] != DocumentStartToken then Broken
    else Made(DocumentStart(false), Opened(Skipped(r.value), DocumentContentState))
  }

  function Opened(c: Config, s: State): Config {
    Saved(c, DocumentEndState).(state := s)
  }

  function DocumentContentStep(c: Config): Step
    requires c.states != []
  {
    if c.rest == [] then Broken
    else
      var t := c.rest[0];
      if IsDirective(t) || t == DocumentStartToken || t == DocumentEndToken || t == StreamEndToken then
        Made(EmptyScalar(), Returned(c))
      else NodeStep(c, true, false)
  }

  function DocumentEndStep(c: Config): Step {
    if c.rest == [] then Broken
    else
      var explicit := c.rest[0] == DocumentEndToken;
      var c1 := if explicit then Skipped(c) else c;
      Made(DocumentEnd(!explicit), c1.(directives := [], state := DocumentStartState))
  }

  // ---- One call ----

  /** A state inside a document has one to return to. */
  predicate Grounded(c: Config) {
    IsCollection(c.state) || c.state == DocumentContentState || c.state == BlockNodeState ==> c.states != []
  }

  /** A collection that is new has its start token skipped and its mark kept. */
  function Begun(c: Config): Config {
    if IsFirst(c.state) && c.rest != [] then Skipped(c).(marks := c.marks + 1) else c
  }

  function StepOf(c: Config): Step {
    if c.done || c.state == EndState then Idle
    else if !Grounded(c) then Broken
    else if IsBlock(c.state) then BlockStep(c)
    else if IsCollection(c.state) then FlowStep(c)
    else if c.state == StreamStartState then StreamStep(c)
    else if c.state == ImplicitDocumentStartState then DocumentStep(c, true)
    else if c.state == DocumentStartState then DocumentStep(c, false)
    else if c.state == DocumentContentState then DocumentContentStep(c)
    else if c.state == DocumentEndState then DocumentEndStep(c)
    else NodeStep(c, true, false)
  }

  function BlockStep(c: Config): Step
    requires IsBlock(c.state) && c.states != []
  {
    if c.state == BlockSequenceFirstEntryState || c.state == BlockSequenceEntryState then BlockSequenceStep(Begun(c))
    else if c.state == IndentlessSequenceEntryState then IndentlessStep(c)
    else if c.state == BlockMappingFirstKeyState || c.state == BlockMappingKeyState then BlockKeyStep(Begun(c))
    else BlockValueStep(c)
  }

  function FlowStep(c: Config): Step
    requires IsCollection(c.state) && !IsBlock(c.state) && c.states != []
  {
    if c.state == FlowSequenceFirstEntryState || c.state == FlowSequenceEntryState then
      FlowSequenceStep(Begun(c), IsFirst(c.state))
    else if c.state == FlowSequenceEntryMappingKeyState then PairKeyStep(c)
    else if c.state == FlowSequenceEntryMappingValueState then PairValueStep(c)
    else if c.state == FlowSequenceEntryMappingEndState then PairEndStep(c)
    else if c.state == FlowMappingFirstKeyState || c.state == FlowMappingKeyState then
      FlowKeyStep(Begun(c), IsFirst(c.state))
    else FlowValueStep(c, c.state == FlowMappingEmptyValueState)
  }

  // ---- Whole runs ----

  function Start(tokens: seq<Token>): Config {
    Config(tokens, StreamStartState, [], [], false, 0)
  }

  /** From `c` the machine makes these events and is then at `d`. */
  ghost predicate Steps(c: Config, events: seq<Event>, d: Config)
    decreases |events|
  {
    if events == [] then c == d
    else
      var step := StepOf(c);
      step.Made? && step.event == events[0] && Steps(step.next, events[1..], d)
  }

  /** From `c` the machine makes these events and no more; it is complete if the stream has ended. */
  ghost predicate Ends(c: Config, events: seq<Event>, complete: bool)
    decreases |events|
  {
    var step := StepOf(c);
    if events == [] then !step.Made? && complete == (step.Idle? && c.state == EndState)
    else step.Made? && step.event == events[0] && Ends(step.next, events[1..], complete)
  }

  lemma {:induction false} StepsOne(c: Config, e: Event, d: Config)
    requires StepOf(c) == Made(e, d)
    ensures Steps(c, [e], d)
  {
    assert [e][1..] == [];
  }

  lemma {:induction false} StepsSnoc(c: Config, a: seq<Event>, d: Config, e: Event, f: Config)
    requires Steps(c, a, d) && StepOf(d) == Made(e, f)
    ensures Steps(c, a + [e], f)
    decreases |a|
  {
    if a == [] {
      StepsOne(d, e, f);
      assert a + [e] == [e];
    } else {
      assert (a + [e])[1..] == a[1..] + [e];
      StepsSnoc(StepOf(c).next, a[1..], d, e, f);
    }
  }

  lemma {:induction false} EndsThere(c: Config, events: seq<Event>, d: Config)
    requires Steps(c, events, d) && !StepOf(d).Made?
    ensures Ends(c, events, StepOf(d).Idle? && d.state == EndState)
    decreases |events|
  {
    if events != [] {
      EndsThere(StepOf(c).next, events[1..], d);
    }
  }

  /** A run has one outcome. */
  lemma {:induction false} EndsOnce(c: Config, a: seq<Event>, x: bool, b: seq<Event>, y: bool)
    requires Ends(c, a, x) && Ends(c, b, y)
    ensures a == b && x == y
    decreases |a|
  {
    if a != [] {
      EndsOnce(StepOf(c).next, a[1..], x, b[1..], y);
      assert a == [a[0]] + a[1..] && b == [b[0]] + b[1..];
    }
  }
}
