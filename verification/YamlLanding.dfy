/** Every step of the parser is one of the event grammar: the stack of states always stands for a place in it. */
module YamlLanding {
  import opened Options
  import opened YamlEvents
  import opened YamlGrammar
  import opened YamlSteps

  // ---- What the states stand for in the grammar ----

  function Frames(s: State): (fs: seq<Frame>)
    ensures fs != [] <==> IsCollection(s)
  {
    match s
    case BlockSequenceFirstEntryState | BlockSequenceEntryState | IndentlessSequenceEntryState => [ItemFrame]
    case FlowSequenceFirstEntryState | FlowSequenceEntryState => [ItemFrame]
    case BlockMappingFirstKeyState | BlockMappingKeyState | FlowMappingFirstKeyState | FlowMappingKeyState => [KeyFrame]
    case BlockMappingValueState | FlowMappingValueState | FlowMappingEmptyValueState => [ValueFrame]
    case FlowSequenceEntryMappingKeyState | FlowSequenceEntryMappingEndState => [ItemFrame, KeyFrame]
    case FlowSequenceEntryMappingValueState => [ItemFrame, ValueFrame]
    case _ => []
  }

  function AllFrames(states: seq<State>): seq<Frame> {
    if states == [] then [] else AllFrames(states[..|states| - 1]) + Frames(states[|states| - 1])
  }

  function PlaceOf(s: State, states: seq<State>): Place {
    match s
    case StreamStartState => Before
    case ImplicitDocumentStartState | DocumentStartState => Between
    case DocumentContentState | BlockNodeState => Root
    case EndState => After
    case _ => Open(AllFrames(states) + Frames(s))
  }

  /** The collections whose start is on the marks stack. */
  function Marked(s: State): nat {
    if !IsCollection(s) || IsFirst(s) || s == IndentlessSequenceEntryState then 0 else 1
  }

  function AllMarked(states: seq<State>): nat {
    if states == [] then 0 else AllMarked(states[..|states| - 1]) + Marked(states[|states| - 1])
  }

  /** A state that can be returned to after a node. */
  predicate Resumes(s: State) {
    IsCollection(s) && !IsFirst(s)
  }

  predicate InMapping(s: State) {
    s == BlockMappingKeyState || s == BlockMappingValueState
  }

  /** Below an indentless sequence there is always a block mapping. */
  predicate Sits(s: State, states: seq<State>) {
    s == IndentlessSequenceEntryState ==> states != [] && InMapping(states[|states| - 1])
  }

  /** The end of the document at the bottom, and open collections above it. */
  ghost predicate Stacked(states: seq<State>) {
    states != [] ==>
      if |states| == 1 then states[0] == DocumentEndState
      else
        var top := |states| - 1;
        Stacked(states[..top]) && Resumes(states[top]) && Sits(states[top], states[..top])
  }

  /** How many events can come at most before the next token is consumed. */
  function Rank(s: State): nat {
    match s
    case ImplicitDocumentStartState | DocumentContentState => 2
    case FlowSequenceEntryMappingValueState | IndentlessSequenceEntryState => 2
    case DocumentEndState | BlockNodeState | BlockMappingValueState => 1
    case FlowMappingValueState | FlowMappingEmptyValueState => 1
    case FlowSequenceEntryMappingKeyState | FlowSequenceEntryMappingEndState => 1
    case _ => 0
  }

  lemma {:induction false} PushFrames(states: seq<State>, s: State)
    ensures AllFrames(states + [s]) == AllFrames(states) + Frames(s)
    ensures AllMarked(states + [s]) == AllMarked(states) + Marked(s)
    ensures states != [] ==> (Stacked(states + [s]) <==> Stacked(states) && Resumes(s) && Sits(s, states))
  {
    assert (states + [s])[..|states|] == states;
  }

  lemma {:induction false} BottomFrames(states: seq<State>)
    requires states == [DocumentEndState]
    ensures AllFrames(states) == [] && AllMarked(states) == 0 && Stacked(states)
  {
    assert states[..0] == [];
  }

  lemma {:induction false} OpenedFrames(states: seq<State>, s: State)
    requires states == [] && (s == DocumentContentState || s == BlockNodeState)
    ensures var st := states + [DocumentEndState];
      st == [DocumentEndState] && Stacked(st) && AllMarked(st) == 0 && PlaceOf(s, st) == Root
    ensures !IsCollection(s) && !IsFirst(s) && Marked(s) == 0
  {
    BottomFrames([DocumentEndState]);
    assert states + [DocumentEndState] == [DocumentEndState];
  }

  /** The single pair of a flow sequence begins and ends on the frame of the sequence. */
  lemma {:induction false} PairFrames(base: seq<Frame>)
    ensures Next(Inside(base + [ItemFrame]), MappingStart(None, None, true, FLOW_STYLE)) ==
            Some(Inside(base + [ItemFrame, KeyFrame]))
    ensures Next(Inside(base + [ItemFrame, KeyFrame]), MappingEnd) == Some(Inside(base + [ItemFrame]))
  {
    var s, t := base + [ItemFrame], base + [ItemFrame, KeyFrame];
    assert s[..|s| - 1] + [ItemFrame] == s && s + [KeyFrame] == t;
    assert t[..|t| - 1] == s;
  }

  lemma {:induction false} EnterFrames(states: seq<State>, s: State, e: Event, p: Place)
    requires WantsNode(p) && Beyond(p) == AllFrames(states) && (e.SequenceStart? || e.MappingStart?)
    requires Frames(s) == [if e.SequenceStart? then ItemFrame else KeyFrame]
    ensures Next(p, e) == Some(PlaceOf(s, states)) && IsCollection(s)
  {
    assert PlaceOf(s, states) == Open(AllFrames(states) + Frames(s));
  }

  lemma {:induction false} EndFrames(base: seq<Frame>, e: Event)
    requires e.SequenceEnd? || e.MappingEnd?
    ensures Next(Inside(base + [if e.SequenceEnd? then ItemFrame else KeyFrame]), e) == Some(Open(base))
  {
    var s := base + [if e.SequenceEnd? then ItemFrame else KeyFrame];
    assert s[..|s| - 1] == base;
  }

  lemma {:induction false} AdvanceTop(a: seq<Frame>, fs: seq<Frame>)
    requires fs != []
    ensures Advance(a + fs) == a + Advance(fs)
  {
    assert (a + fs)[..|a + fs| - 1] == a + fs[..|fs| - 1];
  }

  // ---- The parser at a place of the grammar ----

  predicate StackFits(s: State, states: seq<State>) {
    if IsCollection(s) then states != [] && Sits(s, states)
    else if s == DocumentContentState || s == BlockNodeState then states == [DocumentEndState]
    else states == []
  }

  /** The stacks are in step, and a new collection has its start token before it. */
  ghost predicate Sound(c: Config) {
    && Stacked(c.states) && StackFits(c.state, c.states) && c.marks == AllMarked(c.states) + Marked(c.state)
    && (IsFirst(c.state) ==> c.rest != [] && c.rest[0] == StartToken(c.state))
  }

  ghost function At(c: Config): Place {
    PlaceOf(c.state, c.states)
  }

  /** The grammar allows `e` at `p`, and the parser is where it leads. */
  ghost predicate Lands(p: Place, e: Event, c: Config) {
    Sound(c) && Next(p, e) == Some(At(c))
  }

  /** A node can come at `p`, and what it leads to is on the stack. */
  ghost predicate Ready(c: Config, p: Place) {
    && Stacked(c.states) && c.states != [] && c.marks == AllMarked(c.states)
    && WantsNode(p) && Beyond(p) == AllFrames(c.states)
  }

  lemma {:induction false} ReturnLands(c: Config, p: Place, e: Event)
    requires Ready(c, p) && (e.Scalar? || e.Alias?)
    ensures Lands(p, e, Returned(c)) && !IsFirst(Returned(c).state) && Rank(Returned(c).state) <= 2
  {}

  lemma {:induction false} EnterLands(c: Config, s: State, e: Event, p: Place)
    requires Ready(c, p) && (e.SequenceStart? || e.MappingStart?) && c.rest != []
    requires Frames(s) == [if e.SequenceStart? then ItemFrame else KeyFrame] && Marked(s) == 0 && Sits(s, c.states)
    requires IsFirst(s) ==> c.rest[0] == StartToken(s)
    ensures Lands(p, e, c.(state := s))
  {
    EnterFrames(c.states, s, e, p);
  }

  /** A token has been consumed, or a collection has begun. */
  ghost predicate Begins(c: Config, d: Config, indentless: bool) {
    |d.rest| < |c.rest| || (d.rest == c.rest && (IsFirst(d.state) ||
                                                  (indentless && d.state == IndentlessSequenceEntryState)))
  }

  ghost predicate NodeLanded(step: Step, c: Config, p: Place, indentless: bool) {
    !step.Idle? && (step.Made? ==> Lands(p, step.event, step.next) && Begins(c, step.next, indentless))
  }

  /** As above, or there was an anchor or a tag. */
  ghost predicate ContentLanded(step: Step, c: Config, p: Place, indentless: bool, decorated: bool) {
    && !step.Idle?
    && (step.Made? ==>
          && Lands(p, step.event, step.next)
          && (Begins(c, step.next, indentless) || (step.next.rest == c.rest && decorated)))
  }

  lemma {:induction false} StartLands(c: Config, first: State, implicit: bool, anchor: Option<string>,
                                      tag: Option<string>, p: Place)
    requires Ready(c, p) && c.rest != [] && IsFirst(first) && c.rest[0] == StartToken(first)
    ensures Lands(p, StartEvent(first, implicit, anchor, tag), c.(state := first))
  {
    EnterLands(c, first, StartEvent(first, implicit, anchor, tag), p);
  }

  lemma {:induction false} ContentLands(c: Config, block: bool, indentless: bool, anchor: Option<string>,
                                        tag: Option<string>, p: Place)
    requires Ready(c, p) && c.rest != [] && (indentless ==> InMapping(c.states[|c.states| - 1]))
    ensures ContentLanded(ContentStep(c, block, indentless, anchor, tag), c, p, indentless, anchor.Some? || tag.Some?)
  {
    var t := c.rest[0];
    var implicit := tag.None? || tag.value == "";
    if indentless && t.BlockEntryToken? {
      EnterLands(c, IndentlessSequenceEntryState, SequenceStart(anchor, tag, implicit, BLOCK_STYLE), p);
    } else if t.ScalarToken? {
      ReturnLands(Skipped(c), p, ScalarEvent(t, anchor, tag));
    } else if Starts(t, block).Some? {
      StartLands(c, Starts(t, block).value, implicit, anchor, tag, p);
    } else if anchor.Some? || tag.Some? {
      ReturnLands(c, p, Scalar(anchor, tag, "", implicit, false, PLAIN_SCALAR_STYLE));
    }
  }

  /** A node is an alias, a scalar or the start of a collection, and lands where it leads. */
  lemma {:induction false} NodeLands(c: Config, block: bool, indentless: bool, p: Place)
    requires Ready(c, p) && (indentless ==> InMapping(c.states[|c.states| - 1]))
    ensures NodeLanded(NodeStep(c, block, indentless), c, p, indentless)
  {
    if c.rest != [] {
      if c.rest[0].AliasToken? {
        ReturnLands(Skipped(c), p, Alias(c.rest[0].value));
      } else {
        var d := Decoration(c);
        if d.Some? {
          ContentLands(d.value.next, block, indentless, d.value.anchor, d.value.tag, p);
        }
      }
    }
  }

  // ---- Collections ----

  /** At `p`, in a collection that waits as `fs` says; after the next node it is in state `s`. */
  ghost predicate Within(c: Config, p: Place, fs: seq<Frame>, s: State) {
    && Stacked(c.states) && c.states != [] && Resumes(s) && Sits(s, c.states)
    && c.marks == AllMarked(c.states) + Marked(s)
    && fs != [] && Frames(s) == Advance(fs) && p == Inside(AllFrames(c.states) + fs)
  }

  lemma {:induction false} BegunWithin(c: Config, s: State)
    requires Sound(c) && IsCollection(c.state)
    requires Resumes(s) && Frames(s) == Advance(Frames(c.state)) && Sits(s, c.states)
    requires Marked(s) == if IsFirst(c.state) then 1 else Marked(c.state)
    ensures Within(Begun(c), At(c), Frames(c.state), s)
    ensures |Begun(c).rest| + (if IsFirst(c.state) then 1 else 0) == |c.rest|
  {}

  lemma {:induction false} ItemLands(c: Config, s: State, block: bool, indentless: bool, p: Place, fs: seq<Frame>)
    requires Within(c, p, fs, s) && (indentless ==> InMapping(s))
    ensures NodeLanded(ItemStep(c, s, block, indentless), c, p, indentless)
  {
    AdvanceTop(AllFrames(c.states), fs);
    PushFrames(c.states, s);
    NodeLands(Saved(c, s), block, indentless, p);
  }

  lemma {:induction false} NoItemLands(c: Config, s: State, p: Place, fs: seq<Frame>)
    requires Within(c, p, fs, s)
    ensures Lands(p, EmptyScalar(), c.(state := s))
  {
    AdvanceTop(AllFrames(c.states), fs);
  }

  /** The event is allowed, and at least `n` tokens have been consumed. */
  ghost predicate Landed(step: Step, c: Config, p: Place, n: nat) {
    !step.Idle? && (step.Made? ==> Lands(p, step.event, step.next) && |step.next.rest| + n <= |c.rest|)
  }

  lemma {:induction false} MaybeItemLands(c: Config, x: Context, s: State, block: bool, indentless: bool, p: Place,
                                          fs: seq<Frame>)
    requires Within(c, p, fs, s) && (indentless ==> InMapping(s))
    ensures Landed(MaybeItemStep(c, x, s, block, indentless), c, p, 0)
  {
    if c.rest != [] {
      if Absent(x, c.rest[0]) {
        NoItemLands(c, s, p, fs);
      } else {
        ItemLands(c, s, block, indentless, p, fs);
      }
    }
  }

  lemma {:induction false} ItemAfterLands(c: Config, x: Context, s: State, block: bool, indentless: bool, p: Place,
                                          fs: seq<Frame>)
    requires Within(c, p, fs, s) && c.rest != [] && (indentless ==> InMapping(s))
    ensures Landed(ItemAfterStep(c, x, s, block, indentless), c, p, 1)
  {
    MaybeItemLands(Skipped(c), x, s, block, indentless, p, fs);
  }

  lemma {:induction false} FinishLands(c: Config, e: Event, p: Place, s: State)
    requires Within(c, p, [if e.SequenceEnd? then ItemFrame else KeyFrame], s) && c.rest != [] && Marked(s) == 1
    requires e.SequenceEnd? || e.MappingEnd?
    ensures Lands(p, e, Finished(c))
  {
    EndFrames(AllFrames(c.states), e);
  }

  lemma {:induction false} BlockSequenceLands(c: Config, p: Place)
    requires Within(c, p, [ItemFrame], BlockSequenceEntryState)
    ensures Landed(BlockSequenceStep(c), c, p, 1)
  {
    if c.rest != [] {
      if c.rest[0].BlockEntryToken? {
        ItemAfterLands(c, InBlockSequence, BlockSequenceEntryState, true, false, p, [ItemFrame]);
      } else if c.rest[0].BlockEndToken? {
        FinishLands(c, SequenceEnd, p, BlockSequenceEntryState);
      }
    }
  }

  /** An indentless sequence may end without a token; then the state is one of a block mapping. */
  lemma {:induction false} IndentlessLands(c: Config, p: Place)
    requires Within(c, p, [ItemFrame], IndentlessSequenceEntryState)
    ensures var step := IndentlessStep(c);
      Landed(step, c, p, 0) && (step.Made? ==> |step.next.rest| < |c.rest| || Rank(step.next.state) < 2)
  {
    if c.rest != [] {
      if c.rest[0].BlockEntryToken? {
        ItemAfterLands(c, InIndentless, IndentlessSequenceEntryState, true, false, p, [ItemFrame]);
      } else {
        EndFrames(AllFrames(c.states), SequenceEnd);
      }
    }
  }

  lemma {:induction false} BlockKeyLands(c: Config, p: Place)
    requires Within(c, p, [KeyFrame], BlockMappingValueState)
    ensures Landed(BlockKeyStep(c), c, p, 1)
  {
    if c.rest != [] {
      if c.rest[0].KeyToken? {
        ItemAfterLands(c, InBlockMapping, BlockMappingValueState, true, true, p, [KeyFrame]);
      } else if c.rest[0].BlockEndToken? {
        FinishLands(c, MappingEnd, p, BlockMappingValueState);
      }
    }
  }

  /** The event is allowed, and a token has been consumed or the rank is less than `n`. */
  ghost predicate LandedBelow(step: Step, c: Config, p: Place, n: nat) {
    Landed(step, c, p, 0) && (step.Made? ==> |step.next.rest| < |c.rest| || Rank(step.next.state) < n)
  }

  lemma {:induction false} BlockValueLands(c: Config, p: Place)
    requires Within(c, p, [ValueFrame], BlockMappingKeyState)
    ensures LandedBelow(BlockValueStep(c), c, p, 1)
  {
    if c.rest != [] {
      if c.rest[0].ValueToken? {
        ItemAfterLands(c, InBlockMapping, BlockMappingKeyState, true, true, p, [ValueFrame]);
      } else {
        NoItemLands(c, BlockMappingKeyState, p, [ValueFrame]);
      }
    }
  }

  lemma {:induction false} CommaWithin(c: Config, first: bool, end: Token, p: Place, fs: seq<Frame>, s: State)
    requires Within(c, p, fs, s)
    ensures var r := CommaSkipped(c, first, end);
      r.Some? ==> Within(r.value, p, fs, s) && |r.value.rest| <= |c.rest| &&
                  (first || |r.value.rest| < |c.rest| || r.value.rest[0] == end)
  {}

  lemma {:induction false} FlowItemLands(c: Config, p: Place)
    requires Within(c, p, [ItemFrame], FlowSequenceEntryState) && c.rest != []
    ensures Landed(FlowItemStep(c), c, p, if c.rest[0] == FlowSequenceEndToken then 1 else 0)
  {
    if c.rest[0] == KeyToken {
      PairFrames(AllFrames(c.states));
    } else if c.rest[0] != FlowSequenceEndToken {
      ItemLands(c, FlowSequenceEntryState, false, false, p, [ItemFrame]);
    } else {
      FinishLands(c, SequenceEnd, p, FlowSequenceEntryState);
    }
  }

  lemma {:induction false} FlowSequenceLands(c: Config, first: bool, p: Place)
    requires Within(c, p, [ItemFrame], FlowSequenceEntryState)
    ensures Landed(FlowSequenceStep(c, first), c, p, if first then 0 else 1)
  {
    CommaWithin(c, first, FlowSequenceEndToken, p, [ItemFrame], FlowSequenceEntryState);
    var r := CommaSkipped(c, first, FlowSequenceEndToken);
    if r.Some? {
      FlowItemLands(r.value, p);
    }
  }

  lemma {:induction false} PairKeyItemLands(c: Config, p: Place, fs: seq<Frame>, s: State)
    requires Within(c, p, fs, s) && c.rest != [] && s == FlowSequenceEntryMappingValueState
    ensures LandedBelow(ItemStep(c, s, false, false), c, p, 1)
  {
    ItemLands(c, s, false, false, p, fs);
  }

  lemma {:induction false} PairKeyLands(c: Config, p: Place, fs: seq<Frame>)
    requires Within(c, p, fs, FlowSequenceEntryMappingValueState)
    ensures LandedBelow(PairKeyStep(c), c, p, 1)
  {
    if c.rest != [] {
      if c.rest[0] != ValueToken && c.rest[0] != FlowEntryToken && c.rest[0] != FlowSequenceEndToken {
        PairKeyItemLands(c, p, fs, FlowSequenceEntryMappingValueState);
      } else {
        NoItemLands(Skipped(c), FlowSequenceEntryMappingValueState, p, fs);
      }
    }
  }

  lemma {:induction false} PairValueLands(c: Config, p: Place, fs: seq<Frame>)
    requires Within(c, p, fs, FlowSequenceEntryMappingEndState)
    ensures LandedBelow(PairValueStep(c), c, p, 2)
  {
    if c.rest != [] {
      if c.rest[0] == ValueToken {
        ItemAfterLands(c, InFlowPair, FlowSequenceEntryMappingEndState, false, false, p, fs);
      } else {
        NoItemLands(c, FlowSequenceEntryMappingEndState, p, fs);
      }
    }
  }

  lemma {:induction false} PairEndLands(c: Config)
    requires Sound(c) && c.state == FlowSequenceEntryMappingEndState
    ensures LandedBelow(PairEndStep(c), c, At(c), 1)
  {
    PairFrames(AllFrames(c.states));
  }

  lemma {:induction false} FlowFieldLands(c: Config, p: Place)
    requires Within(c, p, [KeyFrame], FlowMappingValueState) && c.rest != []
    ensures Landed(FlowFieldStep(c), c, p, if c.rest[0] == FlowMappingEndToken then 1 else 0)
  {
    if c.rest[0] == KeyToken {
      ItemAfterLands(c, InFlowMappingKey, FlowMappingValueState, false, false, p, [KeyFrame]);
    } else if c.rest[0] != FlowMappingEndToken {
      ItemLands(c, FlowMappingEmptyValueState, false, false, p, [KeyFrame]);
    } else {
      FinishLands(c, MappingEnd, p, FlowMappingValueState);
    }
  }

  lemma {:induction false} FlowKeyLands(c: Config, first: bool, p: Place)
    requires Within(c, p, [KeyFrame], FlowMappingValueState)
    ensures Landed(FlowKeyStep(c, first), c, p, if first then 0 else 1)
  {
    CommaWithin(c, first, FlowMappingEndToken, p, [KeyFrame], FlowMappingValueState);
    var r := CommaSkipped(c, first, FlowMappingEndToken);
    if r.Some? {
      FlowFieldLands(r.value, p);
    }
  }

  lemma {:induction false} FlowValueLands(c: Config, empty: bool, p: Place)
    requires Within(c, p, [ValueFrame], FlowMappingKeyState)
    ensures LandedBelow(FlowValueStep(c, empty), c, p, 1)
  {
    if c.rest != [] {
      if !empty && c.rest[0] == ValueToken {
        ItemAfterLands(c, InFlowMappingValue, FlowMappingKeyState, false, false, p, [ValueFrame]);
      } else {
        NoItemLands(c, FlowMappingKeyState, p, [ValueFrame]);
      }
    }
  }

  // ---- Documents ----

  lemma {:induction false} DirectedShorter(c: Config, version: bool)
    ensures var r := Directed(c, version);
      r.Some? ==> |r.value.rest| <= |c.rest| && r.value.marks == c.marks &&
                  (r.value.rest == c.rest || IsDirective(c.rest[0]))
    decreases |c.rest|
  {
    if c.rest != [] {
      match c.rest[0] {
        case VersionDirectiveToken(_, _) => DirectedShorter(Skipped(c), true);
        case TagDirectiveToken(handle, prefix) =>
          DirectedShorter(Skipped(c.(directives := c.directives + [TagDirective(handle, prefix)])), version);
        case _ =>
      }
    }
  }

  lemma {:induction false} EndsShorter(c: Config)
    ensures var r := EndsSkipped(c); r.Some? ==> |r.value.rest| <= |c.rest| && r.value.marks == c.marks
    decreases |c.rest|
  {
    if c.rest != [] && c.rest[0] == DocumentEndToken {
      EndsShorter(Skipped(c));
    }
  }

  lemma {:induction false} OpenLands(c: Config, s: State, implicit: bool)
    requires c.states == [] && c.marks == 0 && (s == DocumentContentState || s == BlockNodeState)
    ensures Lands(Between, DocumentStart(implicit), Opened(c, s))
  {
    OpenedFrames(c.states, s);
  }

  lemma {:induction false} ExplicitLands(c: Config)
    requires c.rest != [] && c.states == [] && c.marks == 0
    ensures Landed(ExplicitStep(c), c, Between, 1)
  {
    DirectedShorter(c, false);
    var r := Directed(c, false);
    if r.Some? {
      OpenLands(Skipped(r.value), DocumentContentState, false);
    }
  }

  lemma {:induction false} ImplicitLands(c: Config)
    requires c.rest != [] && c.states == [] && c.marks == 0 && Directed(c, false).Some?
    ensures var d := Opened(Directed(c, false).value, BlockNodeState);
            Lands(Between, DocumentStart(true), d) && |d.rest| <= |c.rest|
  {
    DirectedShorter(c, false);
    OpenLands(Directed(c, false).value, BlockNodeState, true);
  }

  lemma {:induction false} StreamEndLands(c: Config)
    requires c.rest != [] && c.states == [] && c.marks == 0
    ensures Lands(Between, StreamEnd, Skipped(c).(state := EndState))
  {}

  lemma {:induction false} DocumentOrEndLands(c: Config, implicit: bool)
    requires c.rest != [] && c.states == [] && c.marks == 0
    ensures LandedBelow(DocumentOrEndStep(c, implicit), c, Between, if implicit then 2 else 0)
  {
    var t := c.rest[0];
    if t == StreamEndToken {
      StreamEndLands(c);
    } else {
      if implicit && !IsDirective(t) && t != DocumentStartToken {
        if Directed(c, false).Some? {
          ImplicitLands(c);
        }
      } else {
        ExplicitLands(c);
      }
    }
  }

  lemma {:induction false} DocumentLands(c: Config, implicit: bool)
    requires c.states == [] && c.marks == 0
    ensures LandedBelow(DocumentStep(c, implicit), c, Between, if implicit then 2 else 0)
  {
    EndsShorter(c);
    var r := if implicit then Some(c) else EndsSkipped(c);
    if r.Some? && r.value.rest != [] {
      DocumentOrEndLands(r.value, implicit);
    }
  }

  lemma {:induction false} RootLands(c: Config)
    requires Sound(c) && (c.state == DocumentContentState || c.state == BlockNodeState)
    ensures LandedBelow(NodeStep(c, true, false), c, Root, 1)
  {
    BottomFrames(c.states);
    NodeLands(c, true, false, Root);
  }

  lemma {:induction false} NoRootLands(c: Config)
    requires Sound(c) && c.state == DocumentContentState
    ensures Lands(Root, EmptyScalar(), Returned(c)) && Rank(Returned(c).state) < 2
  {
    BottomFrames(c.states);
    ReturnLands(c, Root, EmptyScalar());
  }

  // ---- Every call ----

  lemma {:induction false} OutsideLands(c: Config)
    requires Sound(c) && !IsCollection(c.state) && c.state != EndState && !c.done
    ensures LandedBelow(StepOf(c), c, At(c), Rank(c.state))
  {
    if c.state == ImplicitDocumentStartState {
      DocumentLands(c, true);
    } else if c.state == DocumentStartState {
      DocumentLands(c, false);
    } else if c.state == DocumentContentState {
      RootLands(c);
      NoRootLands(c);
    } else if c.state == BlockNodeState {
      RootLands(c);
    }
  }

  lemma {:induction false} BlockLands(c: Config)
    requires Sound(c) && IsBlock(c.state)
    ensures LandedBelow(BlockStep(c), c, At(c), Rank(c.state))
  {
    if c.state == BlockSequenceFirstEntryState || c.state == BlockSequenceEntryState {
      BegunWithin(c, BlockSequenceEntryState);
      BlockSequenceLands(Begun(c), At(c));
    } else if c.state == IndentlessSequenceEntryState {
      BegunWithin(c, IndentlessSequenceEntryState);
      IndentlessLands(c, At(c));
    } else if c.state == BlockMappingFirstKeyState || c.state == BlockMappingKeyState {
      BegunWithin(c, BlockMappingValueState);
      BlockKeyLands(Begun(c), At(c));
    } else {
      BegunWithin(c, BlockMappingKeyState);
      BlockValueLands(c, At(c));
    }
  }

  lemma {:induction false} PairKeyStateLands(c: Config)
    requires Sound(c) && c.state == FlowSequenceEntryMappingKeyState
    ensures LandedBelow(PairKeyStep(c), c, At(c), 1)
  {
    BegunWithin(c, FlowSequenceEntryMappingValueState);
    PairKeyLands(c, At(c), Frames(c.state));
  }

  lemma {:induction false} PairValueStateLands(c: Config)
    requires Sound(c) && c.state == FlowSequenceEntryMappingValueState
    ensures LandedBelow(PairValueStep(c), c, At(c), 2)
  {
    BegunWithin(c, FlowSequenceEntryMappingEndState);
    PairValueLands(c, At(c), Frames(c.state));
  }

  lemma {:induction false} FlowSequenceStateLands(c: Config)
    requires Sound(c) && IsFlowSequence(c.state)
    ensures LandedBelow(FlowStep(c), c, At(c), Rank(c.state))
  {
    if c.state == FlowSequenceEntryMappingKeyState {
      PairKeyStateLands(c);
    } else if c.state == FlowSequenceEntryMappingValueState {
      PairValueStateLands(c);
    } else if c.state == FlowSequenceEntryMappingEndState {
      PairEndLands(c);
    } else {
      BegunWithin(c, FlowSequenceEntryState);
      FlowSequenceLands(Begun(c), IsFirst(c.state), At(c));
    }
  }

  lemma {:induction false} FlowMappingStateLands(c: Config)
    requires Sound(c) && IsCollection(c.state) && !IsBlock(c.state) && !IsFlowSequence(c.state)
    ensures LandedBelow(FlowStep(c), c, At(c), Rank(c.state))
  {
    if c.state == FlowMappingFirstKeyState || c.state == FlowMappingKeyState {
      BegunWithin(c, FlowMappingValueState);
      FlowKeyLands(Begun(c), IsFirst(c.state), At(c));
    } else {
      BegunWithin(c, FlowMappingKeyState);
      FlowValueLands(c, c.state == FlowMappingEmptyValueState, At(c));
    }
  }

  predicate IsFlowSequence(s: State) {
    || s == FlowSequenceFirstEntryState || s == FlowSequenceEntryState || s == FlowSequenceEntryMappingKeyState
    || s == FlowSequenceEntryMappingValueState || s == FlowSequenceEntryMappingEndState
  }

  /** Every event is one that the grammar allows where the parser stands, the parser lands where it leads, and either
      a token was consumed or the rank of the state went down. */
  lemma {:induction false} StepLands(c: Config)
    requires Sound(c)
    ensures if c.done || c.state == EndState then StepOf(c) == Idle
            else LandedBelow(StepOf(c), c, At(c), Rank(c.state))
  {
    if !c.done && c.state != EndState {
      if !IsCollection(c.state) {
        OutsideLands(c);
      } else if IsBlock(c.state) {
        BlockLands(c);
      } else if IsFlowSequence(c.state) {
        FlowSequenceStateLands(c);
      } else {
        FlowMappingStateLands(c);
      }
    }
  }

  lemma {:induction false} MadeLands(c: Config, e: Event, d: Config)
    requires Sound(c) && StepOf(c) == Made(e, d)
    ensures Lands(At(c), e, d) && |d.rest| <= |c.rest| && (|d.rest| == |c.rest| ==> Rank(d.state) < Rank(c.state))
  {
    StepLands(c);
  }

  lemma {:induction false} NotIdle(c: Config)
    requires Sound(c) && !c.done && c.state != EndState
    ensures !StepOf(c).Idle?
  {
    StepLands(c);
  }
}
