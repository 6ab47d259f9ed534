/** A single pair in a flow sequence whose key is left out: the parser skips the token that shows it. */
module YamlPairs {
  import opened Options
  import opened YamlEvents
  import opened YamlSteps
  import YamlLanding
  import opened YamlSources
  import opened YamlPrinted
  import opened YamlStreams

  // ---- No step adds tokens ----

  ghost predicate Shrinks(step: Step, c: Config) {
    step.Made? ==> |step.next.rest| <= |c.rest|
  }

  lemma {:induction false} NodeShrinks(c: Config, block: bool, indentless: bool)
    requires c.states != []
    ensures Shrinks(NodeStep(c, block, indentless), c)
  {}

  lemma {:induction false} MaybeShrinks(c: Config, x: Context, s: State, block: bool, indentless: bool)
    ensures Shrinks(MaybeItemStep(c, x, s, block, indentless), c)
    ensures Shrinks(ItemStep(c, s, block, indentless), c)
  {
    NodeShrinks(Saved(c, s), block, indentless);
  }

  lemma {:induction false} BlockShrinks(c: Config)
    requires IsBlock(c.state) && c.states != []
    ensures Shrinks(BlockStep(c), c)
  {
    var b := Begun(c);
    if b.rest != [] {
      MaybeShrinks(Skipped(b), InBlockSequence, BlockSequenceEntryState, true, false);
      MaybeShrinks(Skipped(b), InIndentless, IndentlessSequenceEntryState, true, false);
      MaybeShrinks(Skipped(b), InBlockMapping, BlockMappingValueState, true, true);
      MaybeShrinks(Skipped(b), InBlockMapping, BlockMappingKeyState, true, true);
    }
  }

  lemma {:induction false} FlowItemShrinks(c: Config)
    requires c.rest != [] && c.states != []
    ensures Shrinks(FlowItemStep(c), c) && Shrinks(FlowFieldStep(c), c)
  {
    MaybeShrinks(c, InFlowPair, FlowSequenceEntryState, false, false);
    MaybeShrinks(c, InFlowPair, FlowMappingEmptyValueState, false, false);
    MaybeShrinks(Skipped(c), InFlowMappingKey, FlowMappingValueState, false, false);
  }

  lemma {:induction false} PairShrinks(c: Config)
    ensures Shrinks(PairKeyStep(c), c) && Shrinks(PairValueStep(c), c)
    ensures Shrinks(FlowValueStep(c, true), c) && Shrinks(FlowValueStep(c, false), c)
  {
    if c.rest != [] {
      MaybeShrinks(c, InFlowPair, FlowSequenceEntryMappingValueState, false, false);
      MaybeShrinks(Skipped(c), InFlowPair, FlowSequenceEntryMappingEndState, false, false);
      MaybeShrinks(Skipped(c), InFlowMappingValue, FlowMappingKeyState, false, false);
    }
  }

  lemma {:induction false} FlowEntryShrinks(c: Config, first: bool)
    requires c.states != []
    ensures Shrinks(FlowSequenceStep(c, first), c) && Shrinks(FlowKeyStep(c, first), c)
  {
    var r := CommaSkipped(c, first, FlowSequenceEndToken);
    if r.Some? {
      FlowItemShrinks(r.value);
    }
    var q := CommaSkipped(c, first, FlowMappingEndToken);
    if q.Some? {
      FlowItemShrinks(q.value);
    }
  }

  lemma {:induction false} FlowShrinks(c: Config)
    requires IsCollection(c.state) && !IsBlock(c.state) && c.states != []
    ensures Shrinks(FlowStep(c), c)
  {
    FlowEntryShrinks(Begun(c), IsFirst(c.state));
    PairShrinks(c);
  }

  lemma {:induction false} DocumentShrinks(c: Config, implicit: bool)
    ensures Shrinks(DocumentStep(c, implicit), c)
  {
    YamlLanding.EndsShorter(c);
    var r := if implicit then Some(c) else EndsSkipped(c);
    if r.Some? {
      YamlLanding.DirectedShorter(r.value, false);
    }
  }

  lemma {:induction false} StepShrinks(c: Config)
    ensures Shrinks(StepOf(c), c)
  {
    if Grounded(c) {
      if IsBlock(c.state) {
        BlockShrinks(c);
      } else if IsCollection(c.state) {
        FlowShrinks(c);
      } else if c.states != [] {
        NodeShrinks(c, true, false);
      }
    }
    DocumentShrinks(c, true);
    DocumentShrinks(c, false);
  }

  lemma {:induction false} StepsShrink(c: Config, events: seq<Event>, d: Config)
    requires Steps(c, events, d)
    ensures |d.rest| <= |c.rest|
    decreases |events|
  {
    if events != [] {
      StepShrinks(c);
      StepsShrink(StepOf(c).next, events[1..], d);
    }
  }

  // ---- A key that is left out ----

  /** The parser behind the key indicator of a single pair whose key is left out: the next token goes. */
  lemma {:induction false} KeySkips(c: Config, handles: Handles, t: Token, rest: seq<Token>)
    requires Before(c, handles) && c.state == FlowSequenceEntryMappingKeyState && c.rest == [t] + rest
    requires t == ValueToken || EndsEntry(t)
    ensures StepOf(c) == Made(EmptyScalar(), c.(rest := rest, state := FlowSequenceEntryMappingValueState))
  {
    SkipsTo(c, t, rest);
    EntryStep(c);
  }

  /** If then no value indicator comes, the value is left out, too, and the pair ends. */
  lemma {:induction false} ValueSkips(c: Config, handles: Handles, more: seq<Event>, e: Config)
    requires Before(c, handles) && c.state == FlowSequenceEntryMappingValueState
    requires c.rest != [] && c.rest[0] != ValueToken
    ensures var d := c.(state := FlowSequenceEntryState);
            Steps(c, [EmptyScalar()] + ([MappingEnd] + more), e) <==> Steps(d, more, e)
  {
    var d, f := c.(state := FlowSequenceEntryMappingEndState), c.(state := FlowSequenceEntryState);
    EntryStep(c);
    EntryStep(d);
    assert ([EmptyScalar()] + ([MappingEnd] + more))[1..] == [MappingEnd] + more;
    assert ([MappingEnd] + more)[1..] == more;
    assert StepOf(c) == Made(EmptyScalar(), d) && StepOf(d) == Made(MappingEnd, f);
  }

  /** The next entry is expected, but what comes is neither a comma nor the end. */
  lemma {:induction false} EntryBreaks(c: Config)
    requires c.state == FlowSequenceEntryState && c.states != [] && !c.done
    requires c.rest != [] && !EndsEntry(c.rest[0])
    ensures StepOf(c) == Broken
  {
    EntryStep(c);
  }

  /** Without a comma or the end behind the token that goes, the run breaks after an empty pair. */
  lemma {:induction false} KeyBreaks(c: Config, handles: Handles, t: Token, rest: seq<Token>)
    requires Before(c, handles) && c.state == FlowSequenceEntryMappingKeyState && c.rest == [t] + rest
    requires (t == ValueToken || EndsEntry(t)) && rest != [] && rest[0] != ValueToken && !EndsEntry(rest[0])
    ensures Ends(c, [EmptyScalar(), EmptyScalar(), MappingEnd], false)
  {
    var c1 := c.(rest := rest, state := FlowSequenceEntryMappingValueState);
    var d := c1.(state := FlowSequenceEntryState);
    KeySkips(c, handles, t, rest);
    ValueSkips(c1, handles, [], d);
    EntryBreaks(d);
    var two := [EmptyScalar()] + ([MappingEnd] + []);
    GoesOne(EmptyScalar(), c1, two, d);
    GoesSteps(c, Made(EmptyScalar(), c1), [EmptyScalar()] + two, d);
    EndsThere(c, [EmptyScalar()] + two, d);
    assert [EmptyScalar()] + two == [EmptyScalar(), EmptyScalar(), MappingEnd];
  }

  /** A value that is there is not read. */
  lemma {:induction false} ValueLost(c: Config, value: Source, handles: Handles, after: seq<Token>, more: seq<Event>,
                                     d: Config)
    requires Before(c, handles) && c.state == FlowSequenceEntryMappingValueState && Fits(value, InFlow, handles)
    requires !Missing(value) && after != [] && EndsEntry(after[0]) && c.rest == Print(value, after)
    requires d == c.(rest := after, state := FlowSequenceEntryState)
    ensures !Steps(c, more, d)
  {
    FirstOpens(value, InFlow, handles, after);
    var c1, c2 := c.(state := FlowSequenceEntryMappingEndState), c.(state := FlowSequenceEntryState);
    EntryStep(c);
    EntryStep(c1);
    EntryBreaks(c2);
    assert StepOf(c) == Made(EmptyScalar(), c1) && StepOf(c1) == Made(MappingEnd, c2);
    assert c2.rest[0] != d.rest[0];
    if more != [] {
      NotBefore(c1, c2, more[1..], d);
    }
    NotBefore(c, c1, more, d);
  }

  /** A run cannot reach `d` if its first step is not there and cannot. */
  lemma {:induction false} NotBefore(c: Config, c1: Config, more: seq<Event>, d: Config)
    requires StepOf(c).Made? && StepOf(c).next == c1 && c != d
    requires |more| > 0 ==> !Steps(c1, more[1..], d) || (c1 != d && StepOf(c1) == Broken)
    ensures !Steps(c, more, d)
  {}

  /** A single pair without a key is read as it was written, with what follows it still to come, exactly if it has a
      value indicator and no value. */
  lemma {:induction false} LeftOutKey(c: Config, valued: bool, value: Source, handles: Handles, after: seq<Token>)
    requires Before(c, handles) && c.state == FlowSequenceEntryMappingKeyState && Fits(value, InFlow, handles)
    requires (!valued ==> Missing(value)) && after != [] && EndsEntry(after[0])
    requires c.rest == PrintValue(valued, value, after)
    ensures var d := c.(rest := after, state := FlowSequenceEntryState);
            Steps(c, [EmptyScalar()] + Events(value, handles, [MappingEnd]), d) <==> valued && Missing(value)
  {
    var more, d := Events(value, handles, [MappingEnd]), c.(rest := after, state := FlowSequenceEntryState);
    assert ([EmptyScalar()] + more)[1..] == more;
    if !valued {
      assert after == [after[0]] + after[1..];
      var c1 := c.(rest := after[1..], state := FlowSequenceEntryMappingValueState);
      KeySkips(c, handles, after[0], after[1..]);
      if Steps(c1, more, d) {
        StepsShrink(c1, more, d);
      }
    } else {
      var c1 := c.(rest := Print(value, after), state := FlowSequenceEntryMappingValueState);
      KeySkips(c, handles, ValueToken, Print(value, after));
      if Missing(value) {
        PropsOpen([], after);
        assert more == [EmptyScalar()] + ([MappingEnd] + []);
        ValueSkips(c1, handles, [], d);
      } else {
        ValueLost(c1, value, handles, after, more, d);
      }
    }
  }

  lemma {:induction false} EndsBefore(c: Config, x: Event, d: Config, events: seq<Event>)
    requires StepOf(c) == Made(x, d) && Ends(d, events, false)
    ensures Ends(c, [x] + events, false)
  {
    assert ([x] + events)[1..] == events;
  }

  /** A flow sequence that begins with a single pair. */
  lemma {:induction false} PairBegins(c: Config, rest: seq<Token>)
    requires c.state == FlowSequenceFirstEntryState && c.states != [] && !c.done
    requires c.rest == [FlowSequenceStartToken] + ([KeyToken] + rest)
    ensures StepOf(c) ==
            Made(MappingStart(None, None, true, 2),
                 c.(rest := rest, state := FlowSequenceEntryMappingKeyState, marks := c.marks + 1))
  {
    FirstStep(c);
    BegunAt(c, FlowSequenceStartToken, [KeyToken] + rest);
    FlowSequenceEntered(Begun(c), true, [KeyToken] + rest);
    SkipsTo(Begun(c), KeyToken, rest);
  }

  /** A document that begins with a flow sequence. */
  lemma {:induction false} FlowBegins(c: Config, rest: seq<Token>)
    requires Ready(c, true) && c.rest == [FlowSequenceStartToken] + rest
    ensures var d := Config(c.rest, BlockNodeState, [DocumentEndState], WithDefaults([]), false, c.marks);
      && StepOf(c) == Made(DocumentStart(true), d)
      && StepOf(d) == Made(SequenceStart(None, None, true, 2), d.(state := FlowSequenceFirstEntryState))
  {
    OutsideStep(c);
    var d := Config(c.rest, BlockNodeState, [DocumentEndState], WithDefaults([]), false, c.marks);
    OutsideStep(d);
  }

  lemma {:induction false} PairFails(c: Config, handles: Handles, rest: seq<Token>, start: Event, three: seq<Event>)
    requires c.state == FlowSequenceFirstEntryState && Before(c, handles)
    requires c.rest == [FlowSequenceStartToken] + ([KeyToken] + ([ValueToken] + rest))
    requires rest != [] && rest[0] != ValueToken && !EndsEntry(rest[0])
    requires start == MappingStart(None, None, true, 2) && three == [EmptyScalar(), EmptyScalar(), MappingEnd]
    ensures Ends(c, [start] + three, false)
  {
    PairBegins(c, [ValueToken] + rest);
    var d := c.(rest := [ValueToken] + rest, state := FlowSequenceEntryMappingKeyState, marks := c.marks + 1);
    KeyBreaks(d, handles, ValueToken, rest);
    EndsBefore(c, start, d, three);
  }

  lemma {:induction false} DocumentFails(c: Config, rest: seq<Token>, events: seq<Event>)
    requires Ready(c, true) && c.rest == [FlowSequenceStartToken] + ([KeyToken] + ([ValueToken] + rest))
    requires rest != [] && rest[0] != ValueToken && !EndsEntry(rest[0])
    requires events == [MappingStart(None, None, true, 2)] + [EmptyScalar(), EmptyScalar(), MappingEnd]
    ensures Ends(c, [DocumentStart(true)] + ([SequenceStart(None, None, true, 2)] + events), false)
  {
    var d := Config(c.rest, BlockNodeState, [DocumentEndState], WithDefaults([]), false, c.marks);
    var f := d.(state := FlowSequenceFirstEntryState);
    FlowBegins(c, [KeyToken] + ([ValueToken] + rest));
    HandlesAgree([]);
    PairFails(f, HandlesOf([]), rest, MappingStart(None, None, true, 2), [EmptyScalar(), EmptyScalar(), MappingEnd]);
    EndsBefore(d, SequenceStart(None, None, true, 2), f, events);
    EndsBefore(c, DocumentStart(true), d, [SequenceStart(None, None, true, 2)] + events);
  }

  lemma {:induction false} StreamFails(tokens: seq<Token>, body: seq<Token>, rest: seq<Token>, events: seq<Event>)
    requires tokens == [StreamStartToken] + body
    requires body == [FlowSequenceStartToken] + ([KeyToken] + ([ValueToken] + rest))
    requires rest != [] && rest[0] != ValueToken && !EndsEntry(rest[0])
    requires events == [MappingStart(None, None, true, 2)] + [EmptyScalar(), EmptyScalar(), MappingEnd]
    ensures Ends(Start(tokens),
                 [StreamStart] + ([DocumentStart(true)] + ([SequenceStart(None, None, true, 2)] + events)), false)
  {
    var d := Config(body, ImplicitDocumentStartState, [], [], false, 0);
    StreamBegins(Start(tokens), d, body);
    DocumentFails(d, rest, events);
    EndsBefore(Start(tokens), StreamStart, d, [DocumentStart(true)] + ([SequenceStart(None, None, true, 2)] + events));
  }

  /** `[? : v]` is such a stream: the parser fails at the value. */
  lemma {:induction false} LeftOutKeyFails(v: string, tokens: seq<Token>, events: seq<Event>)
    requires tokens == [StreamStartToken, FlowSequenceStartToken, KeyToken, ValueToken, ScalarToken(v, 1),
                        FlowSequenceEndToken, StreamEndToken]
    requires events == [StreamStart, DocumentStart(true), SequenceStart(None, None, true, 2),
                        MappingStart(None, None, true, 2), EmptyScalar(), EmptyScalar(), MappingEnd]
    ensures Ends(Start(tokens), events, false)
  {
    var rest := [ScalarToken(v, 1), FlowSequenceEndToken, StreamEndToken];
    var pair, empty := MappingStart(None, None, true, 2), EmptyScalar();
    Nested(StreamStartToken, FlowSequenceStartToken, KeyToken, ValueToken, ScalarToken(v, 1), FlowSequenceEndToken,
           StreamEndToken);
    Nested(StreamStart, DocumentStart(true), SequenceStart(None, None, true, 2), pair, empty, empty, MappingEnd);
    StreamFails(tokens, [FlowSequenceStartToken] + ([KeyToken] + ([ValueToken] + rest)), rest,
                [pair] + [empty, empty, MappingEnd]);
  }

  lemma {:induction false} Nested<T>(a: T, b: T, c: T, d: T, e: T, f: T, g: T)
    ensures [a, b, c, d, e, f, g] == [a] + ([b] + ([c] + ([d] + [e, f, g])))
  {}
}
