/** The parser: a pushdown automaton from tokens to events, in place.  Every method does one step of the machine in
    YamlSteps.  The tokens come from a scanner that is not part of this model, so the token sequence is arbitrary;
    running out of tokens stands for a scanner error. */
module YamlParser {
  import opened Options
  import opened YamlEvents
  import opened YamlGrammar
  import opened YamlSteps
  import opened YamlLanding
  import opened YamlTells

  datatype Parsed = Got(event: Event) | Fail | Nothing

  class Parser {
    const tokens: seq<Token>
    var pos: nat
    var state: State
    var states: seq<State>
    var marks: seq<nat>
    var tagDirectives: seq<TagDirective>
    var error: bool
    var streamEndProduced: bool

    constructor (tokens: seq<Token>)
      ensures Valid() && !error && this.tokens == tokens && Now() == Start(tokens)
    {
      this.tokens, pos, state, states, marks, tagDirectives := tokens, 0, StreamStartState, [], [], [];
      error, streamEndProduced := false, false;
    }

    ghost function Now(): Config
      requires pos <= |tokens|
      reads this`pos, this`state, this`states, this`marks, this`tagDirectives, this`streamEndProduced
    {
      Config(tokens[pos..], state, states, tagDirectives, streamEndProduced, |marks|)
    }

    ghost predicate Valid()
      reads this`pos, this`state, this`states, this`marks, this`tagDirectives, this`streamEndProduced
    {
      pos <= |tokens| && Sound(Now())
    }

    /** What was done is this step of the machine. */
    ghost predicate Did(step: Step, r: Parsed)
      reads this
    {
      match step
      case Made(event, next) => r == Got(event) && !error && pos <= |tokens| && Now() == next
      case Broken => r == Fail && error
      case Idle => r == Nothing
    }

    method Peek() returns (t: Option<Token>)
      requires pos <= |tokens|
      modifies this`error
      ensures t.Some? ==> pos < |tokens| && t.value == tokens[pos] && error == old(error)
      ensures t.None? ==> pos == |tokens| && error
    {
      if pos < |tokens| {
        t := Some(tokens[pos]);
      } else {
        error := true;
        t := None;
      }
    }

    method Skip()
      requires pos < |tokens|
      modifies this`pos, this`streamEndProduced
      ensures pos == old(pos) + 1 && Now() == Skipped(old(Now()))
    {
      streamEndProduced := tokens[pos] == StreamEndToken;
      pos := pos + 1;
    }

    /** The state on top of the stack is returned to. */
    method Pop()
      requires states != [] && pos <= |tokens|
      modifies this`state, this`states
      ensures Now() == Returned(old(Now()))
    {
      state := states[|states| - 1];
      states := states[..|states| - 1];
    }

    // ---- Nodes ----

    /** Reads the anchor and the tag of a node, in either order, each at most once; afterwards the next token has been
        looked at. */
    method ReadProperties() returns (ok: bool, anchor: Option<string>, tag: Option<TagDirective>)
      requires pos < |tokens| && !error
      modifies this`pos, this`streamEndProduced, this`error
      ensures old(pos) <= pos <= |tokens| && (ok ==> pos < |tokens|) && error == !ok
      ensures var h := ReadHeader(old(Now())); if ok then h == Some(Header(Now(), anchor, tag)) else h.None?
    {
      ok, anchor, tag := true, None, None;
      var token := tokens[pos];
      var next;
      if token.AnchorToken? {
        anchor := Some(token.value);
        Skip();
        next := Peek();
        if next.None? {
          return false, anchor, tag;
        }
        if next.value.TagToken? {
          tag := Some(TagDirective(next.value.handle, next.value.suffix));
          Skip();
          next := Peek();
          ok := next.Some?;
        }
      } else if token.TagToken? {
        tag := Some(TagDirective(token.handle, token.suffix));
        Skip();
        next := Peek();
        if next.None? {
          return false, anchor, tag;
        }
        if next.value.AnchorToken? {
          anchor := Some(next.value.value);
          Skip();
          next := Peek();
          ok := next.Some?;
        }
      }
    }

    /** A tag is its suffix, or the prefix of its handle and its suffix. */
    method ResolveTag(tag: TagDirective) returns (r: Option<string>)
      ensures r == Resolved(tagDirectives, tag)
    {
      if tag.handle == "" {
        return Some(tag.prefix);
      }
      for k := 0 to |tagDirectives|
        invariant Lookup(tagDirectives, tag.handle) == Lookup(tagDirectives[k..], tag.handle)
      {
        assert tagDirectives[k..][1..] == tagDirectives[k + 1..];
        if tagDirectives[k].handle == tag.handle {
          return Some(tagDirectives[k].prefix + tag.prefix);
        }
      }
      r := None;
    }

    method ReadAnchorAndTag() returns (ok: bool, anchor: Option<string>, tag: Option<string>)
      requires pos < |tokens| && !error
      modifies this`pos, this`streamEndProduced, this`error
      ensures old(pos) <= pos <= |tokens| && (ok ==> pos < |tokens|) && error == !ok
      ensures var d := Decoration(old(Now())); if ok then d == Some(Decorated(Now(), anchor, tag)) else d.None?
    {
      var tagToken;
      ok, anchor, tagToken := ReadProperties();
      tag := None;
      if ok && tagToken.Some? {
        tag := ResolveTag(tagToken.value);
        if tag.None? {
          error := true;
          ok := false;
        }
      }
    }

    /** A node: what it leads to is on the stack. */
    method ParseNode(block: bool, indentless: bool) returns (r: Parsed)
      requires pos <= |tokens| && states != [] && !error
      modifies this`pos, this`state, this`states, this`streamEndProduced, this`error
      ensures Did(NodeStep(old(Now()), block, indentless), r) && old(pos) <= pos
    {
      var token := Peek();
      if token.None? {
        return Fail;
      }
      if token.value.AliasToken? {
        r := Got(Alias(token.value.value));
        Skip();
        Pop();
        return;
      }
      var ok, anchor, tag := ReadAnchorAndTag();
      if !ok {
        return Fail;
      }
      r := ParseContent(block, indentless, anchor, tag);
    }

    method ParseContent(block: bool, indentless: bool, anchor: Option<string>, tag: Option<string>) returns (r: Parsed)
      requires pos < |tokens| && states != [] && !error
      modifies this`pos, this`state, this`states, this`streamEndProduced, this`error
      ensures Did(ContentStep(old(Now()), block, indentless, anchor, tag), r) && old(pos) <= pos
    {
      var token := tokens[pos];
      var implicit := tag.None? || tag.value == "";
      if indentless && token.BlockEntryToken? {
        state := IndentlessSequenceEntryState;
        r := Got(SequenceStart(anchor, tag, implicit, BLOCK_STYLE));
      } else if token.ScalarToken? {
        r := ParseScalar(anchor, tag);
      } else if Starts(token, block).Some? {
        r := StartCollection(Starts(token, block).value, implicit, anchor, tag);
      } else if anchor.Some? || tag.Some? {
        Pop();
        r := Got(Scalar(anchor, tag, "", implicit, false, PLAIN_SCALAR_STYLE));
      } else {
        error := true;
        r := Fail;
      }
    }

    method ParseScalar(anchor: Option<string>, tag: Option<string>) returns (r: Parsed)
      requires pos < |tokens| && tokens[pos].ScalarToken? && states != []
      modifies this`pos, this`state, this`states, this`streamEndProduced
      ensures old(pos) <= pos <= |tokens| && Now() == Returned(Skipped(old(Now())))
      ensures r == Got(ScalarEvent(tokens[old(pos)], anchor, tag))
    {
      var token := tokens[pos];
      var plainImplicit, quotedImplicit := false, false;
      Pop();
      if (token.style == PLAIN_SCALAR_STYLE && tag.None?) || (tag.Some? && tag.value == "!") {
        plainImplicit := true;
      } else if tag.None? {
        quotedImplicit := true;
      }
      r := Got(Scalar(anchor, tag, token.value, plainImplicit, quotedImplicit, token.style));
      Skip();
    }

    /** A collection begins; its start token is still to be skipped. */
    method StartCollection(first: State, implicit: bool, anchor: Option<string>, tag: Option<string>)
      returns (r: Parsed)
      requires pos < |tokens| && IsFirst(first)
      modifies this`state
      ensures Now() == old(Now()).(state := first) && r == Got(StartEvent(first, implicit, anchor, tag))
    {
      var flow := first == FlowSequenceFirstEntryState || first == FlowMappingFirstKeyState;
      var style := if flow then FLOW_STYLE else BLOCK_STYLE;
      state := first;
      if first == FlowSequenceFirstEntryState || first == BlockSequenceFirstEntryState {
        r := Got(SequenceStart(anchor, tag, implicit, style));
      } else {
        r := Got(MappingStart(anchor, tag, implicit, style));
      }
    }

    // ---- Collections ----

    /** When a collection is new, its start token is skipped and its mark kept. */
    method Resume(first: bool)
      requires pos <= |tokens| && first == IsFirst(state) && (first ==> pos < |tokens|)
      modifies this`pos, this`marks, this`streamEndProduced
      ensures old(pos) <= pos <= |tokens| && Now() == Begun(old(Now())) && (first ==> marks != [])
      ensures !first ==> marks == old(marks)
    {
      if first {
        marks := marks + [pos];
        Skip();
      }
    }

    /** The next node of the collection; afterwards the parser goes on in state `s`. */
    method Item(s: State, block: bool, indentless: bool) returns (r: Parsed)
      requires pos <= |tokens| && !error
      modifies this`pos, this`state, this`states, this`streamEndProduced, this`error
      ensures Did(ItemStep(old(Now()), s, block, indentless), r) && old(pos) <= pos
    {
      states := states + [s];
      r := ParseNode(block, indentless);
    }

    /** A node is left out: an empty scalar stands for it. */
    method NoItem(s: State) returns (r: Parsed)
      requires pos <= |tokens| && !error
      modifies this`state
      ensures Did(NoItemStep(old(Now()), s), r)
    {
      state := s;
      r := Got(EmptyScalar());
    }

    /** An indicator is skipped; the node after it may be left out. */
    method ItemAfter(c: Context, s: State, block: bool, indentless: bool) returns (r: Parsed)
      requires pos < |tokens| && !error
      modifies this`pos, this`state, this`states, this`streamEndProduced, this`error
      ensures Did(ItemAfterStep(old(Now()), c, s, block, indentless), r) && old(pos) <= pos
    {
      Skip();
      r := MaybeItem(c, s, block, indentless);
    }

    method MaybeItem(c: Context, s: State, block: bool, indentless: bool) returns (r: Parsed)
      requires pos <= |tokens| && !error
      modifies this`pos, this`state, this`states, this`streamEndProduced, this`error
      ensures Did(MaybeItemStep(old(Now()), c, s, block, indentless), r) && old(pos) <= pos
    {
      var token := Peek();
      if token.None? {
        return Fail;
      }
      r := ItemUnless(Absent(c, token.value), s, block, indentless);
    }

    method ItemUnless(absent: bool, s: State, block: bool, indentless: bool) returns (r: Parsed)
      requires pos <= |tokens| && !error
      modifies this`pos, this`state, this`states, this`streamEndProduced, this`error
      ensures Did(if absent then NoItemStep(old(Now()), s) else ItemStep(old(Now()), s, block, indentless), r)
      ensures old(pos) <= pos
    {
      if absent {
        r := NoItem(s);
      } else {
        r := Item(s, block, indentless);
      }
    }

    /** A collection ends: its end token is skipped, its state and its mark are popped. */
    method Finish()
      requires pos < |tokens| && states != [] && marks != []
      modifies this`pos, this`state, this`states, this`marks, this`streamEndProduced
      ensures old(pos) <= pos <= |tokens| && Now() == Finished(old(Now()))
    {
      Pop();
      marks := marks[..|marks| - 1];
      Skip();
    }

    /** An error message takes the mark of the collection. */
    method MarkedError() returns (r: Parsed)
      requires marks != []
      modifies this`marks, this`error
      ensures r == Fail && error
    {
      marks := marks[..|marks| - 1];
      error := true;
      r := Fail;
    }

    /** In a collection whose mark is kept, or will be when its start token is skipped. */
    ghost predicate Open(first: bool)
      reads this
    {
      && pos <= |tokens| && states != [] && !error && first == IsFirst(state)
      && if first then pos < |tokens| else marks != []
    }

    method BlockSequenceEntry(first: bool) returns (r: Parsed)
      requires Open(first)
      modifies this
      ensures Did(BlockSequenceStep(Begun(old(Now()))), r) && old(pos) <= pos
    {
      Resume(first);
      var token := Peek();
      if token.None? {
        r := Fail;
      } else if token.value.BlockEntryToken? {
        r := ItemAfter(InBlockSequence, BlockSequenceEntryState, true, false);
      } else if token.value.BlockEndToken? {
        r := Got(SequenceEnd);
        Finish();
      } else {
        r := MarkedError();
      }
    }

    /** An indentless sequence has no tokens and no mark of its own: it ends at any other token. */
    method IndentlessSequenceEntry() returns (r: Parsed)
      requires pos <= |tokens| && states != [] && !error
      modifies this
      ensures Did(IndentlessStep(old(Now())), r) && old(pos) <= pos
    {
      var token := Peek();
      if token.None? {
        r := Fail;
      } else if token.value.BlockEntryToken? {
        r := ItemAfter(InIndentless, IndentlessSequenceEntryState, true, false);
      } else {
        r := Got(SequenceEnd);
        Pop();
      }
    }

    method BlockMappingKey(first: bool) returns (r: Parsed)
      requires Open(first)
      modifies this
      ensures Did(BlockKeyStep(Begun(old(Now()))), r) && old(pos) <= pos
    {
      Resume(first);
      var token := Peek();
      if token.None? {
        r := Fail;
      } else if token.value.KeyToken? {
        r := ItemAfter(InBlockMapping, BlockMappingValueState, true, true);
      } else if token.value.BlockEndToken? {
        r := Got(MappingEnd);
        Finish();
      } else {
        r := MarkedError();
      }
    }

    method BlockMappingValue() returns (r: Parsed)
      requires pos <= |tokens| && !error
      modifies this
      ensures Did(BlockValueStep(old(Now())), r) && old(pos) <= pos
    {
      var token := Peek();
      if token.None? {
        r := Fail;
      } else if token.value.ValueToken? {
        r := ItemAfter(InBlockMapping, BlockMappingKeyState, true, true);
      } else {
        r := NoItem(BlockMappingKeyState);
      }
    }

    /** Between two entries of a flow collection there is a comma. */
    method Comma(first: bool, end: Token) returns (ok: bool)
      requires pos <= |tokens| && !error && marks != []
      modifies this`pos, this`marks, this`streamEndProduced, this`error
      ensures old(pos) <= pos <= |tokens| && error == !ok && (ok ==> marks == old(marks))
      ensures var d := CommaSkipped(old(Now()), first, end); if ok then d == Some(Now()) else d.None?
    {
      var token := Peek();
      if token.None? {
        return false;
      }
      if token.value != end && !first {
        if token.value != FlowEntryToken {
          var _ := MarkedError();
          return false;
        }
        Skip();
        token := Peek();
        return token.Some?;
      }
      ok := true;
    }

    /** The next entry of a flow sequence: a node, a single pair if there is a key indicator, or the end. */
    method FlowSequenceEntry(first: bool) returns (r: Parsed)
      requires Open(first)
      modifies this
      ensures Did(FlowSequenceStep(Begun(old(Now())), first), r) && old(pos) <= pos
    {
      Resume(first);
      var ok := Comma(first, FlowSequenceEndToken);
      if ok {
        r := FlowSequenceItem();
      } else {
        r := Fail;
      }
    }

    method FlowSequenceItem() returns (r: Parsed)
      requires pos < |tokens| && states != [] && marks != [] && !error
      modifies this
      ensures Did(FlowItemStep(old(Now())), r) && old(pos) <= pos
    {
      var token := tokens[pos];
      if token == KeyToken {
        state := FlowSequenceEntryMappingKeyState;
        Skip();
        r := Got(MappingStart(None, None, true, FLOW_STYLE));
      } else if token != FlowSequenceEndToken {
        r := Item(FlowSequenceEntryState, false, false);
      } else {
        r := Got(SequenceEnd);
        Finish();
      }
    }

    /** The key of a single pair; a token that shows that it is left out is skipped. */
    method FlowSequenceEntryMappingKey() returns (r: Parsed)
      requires pos <= |tokens| && !error
      modifies this
      ensures Did(PairKeyStep(old(Now())), r) && old(pos) <= pos
    {
      var next := Peek();
      if next.None? {
        return Fail;
      }
      var token := next.value;
      if token != ValueToken && token != FlowEntryToken && token != FlowSequenceEndToken {
        r := Item(FlowSequenceEntryMappingValueState, false, false);
      } else {
        Skip();
        r := NoItem(FlowSequenceEntryMappingValueState);
      }
    }

    /** The value of a single pair. */
    method FlowSequenceEntryMappingValue() returns (r: Parsed)
      requires pos <= |tokens| && !error
      modifies this
      ensures Did(PairValueStep(old(Now())), r) && old(pos) <= pos
    {
      var token := Peek();
      if token.None? {
        r := Fail;
      } else if token.value == ValueToken {
        r := ItemAfter(InFlowPair, FlowSequenceEntryMappingEndState, false, false);
      } else {
        r := NoItem(FlowSequenceEntryMappingEndState);
      }
    }

    method FlowSequenceEntryMappingEnd() returns (r: Parsed)
      requires pos <= |tokens| && !error
      modifies this
      ensures Did(PairEndStep(old(Now())), r) && old(pos) <= pos
    {
      var token := Peek();
      if token.None? {
        return Fail;
      }
      state := FlowSequenceEntryState;
      r := Got(MappingEnd);
    }

    method FlowMappingKey(first: bool) returns (r: Parsed)
      requires Open(first)
      modifies this
      ensures Did(FlowKeyStep(Begun(old(Now())), first), r) && old(pos) <= pos
    {
      Resume(first);
      var ok := Comma(first, FlowMappingEndToken);
      if ok {
        r := FlowMappingItem();
      } else {
        r := Fail;
      }
    }

    method FlowMappingItem() returns (r: Parsed)
      requires pos < |tokens| && states != [] && marks != [] && !error
      modifies this
      ensures Did(FlowFieldStep(old(Now())), r) && old(pos) <= pos
    {
      var token := tokens[pos];
      if token == KeyToken {
        r := ItemAfter(InFlowMappingKey, FlowMappingValueState, false, false);
      } else if token != FlowMappingEndToken {
        r := Item(FlowMappingEmptyValueState, false, false);
      } else {
        r := Got(MappingEnd);
        Finish();
      }
    }

    method FlowMappingValue(empty: bool) returns (r: Parsed)
      requires pos <= |tokens| && !error
      modifies this
      ensures Did(FlowValueStep(old(Now()), empty), r) && old(pos) <= pos
    {
      var token := Peek();
      if token.None? {
        r := Fail;
      } else if !empty && token.value == ValueToken {
        r := ItemAfter(InFlowMappingValue, FlowMappingKeyState, false, false);
      } else {
        r := NoItem(FlowMappingKeyState);
      }
    }

    // ---- Stream and documents ----

    method StreamBegin() returns (r: Parsed)
      requires pos <= |tokens| && !error
      modifies this
      ensures Did(StreamStep(old(Now())), r) && old(pos) <= pos
    {
      var token := Peek();
      if token.None? {
        return Fail;
      }
      if token.value != StreamStartToken {
        error := true;
        return Fail;
      }
      state := ImplicitDocumentStartState;
      r := Got(StreamStart);
      Skip();
    }

    /** append_tag_directive: a handle can be defined only once, except that the defaults give way. */
    method AppendTagDirective(d: TagDirective, allowDuplicates: bool) returns (ok: bool)
      requires !error
      modifies this`tagDirectives, this`error
      ensures error == !ok && (ok ==> tagDirectives == Defaulted(old(tagDirectives), d))
      ensures !ok <==> !allowDuplicates && Lookup(old(tagDirectives), d.handle).Some?
    {
      for k := 0 to |tagDirectives|
        invariant tagDirectives == old(tagDirectives) && !error
        invariant Lookup(tagDirectives, d.handle) == Lookup(tagDirectives[k..], d.handle)
      {
        assert tagDirectives[k..][1..] == tagDirectives[k + 1..];
        if tagDirectives[k].handle == d.handle {
          if !allowDuplicates {
            error := true;
          }
          return allowDuplicates;
        }
      }
      tagDirectives := tagDirectives + [d];
      ok := true;
    }

    /** process_directives: afterwards the next token has been looked at and is not a directive. */
    method ProcessDirectives() returns (ok: bool)
      requires pos <= |tokens| && !error
      modifies this`pos, this`tagDirectives, this`streamEndProduced, this`error
      ensures old(pos) <= pos <= |tokens| && error == !ok
      ensures var d := Directed(old(Now()), false); if ok then d == Some(Now()) else d.None?
    {
      var version := false;
      var token := Peek();
      if token.None? {
        return false;
      }
      while IsDirective(token.value)
        invariant token.Some? && old(pos) <= pos < |tokens| && token.value == tokens[pos] && !error
        invariant Directed(old(Now()), false) == Directed(Now(), version)
        decreases |tokens| - pos
      {
        ok, version := ProcessDirective(version);
        if !ok {
          return;
        }
        token := Peek();
        if token.None? {
          return false;
        }
      }
      ok := AppendTagDirective(TagDirective("!", "!"), true);
      ok := AppendTagDirective(TagDirective("!!", "tag:yaml.org,2002:"), true);
    }

    method ProcessDirective(version: bool) returns (ok: bool, version': bool)
      requires pos < |tokens| && !error && IsDirective(tokens[pos])
      modifies this`pos, this`tagDirectives, this`streamEndProduced, this`error
      ensures error == !ok && old(pos) <= pos <= |tokens| && (ok ==> old(pos) < pos)
      ensures Directed(old(Now()), version) == if ok then Directed(Now(), version') else None
    {
      var token := tokens[pos];
      version' := version;
      if token.VersionDirectiveToken? {
        if version || token.major != 1 || (token.minor != 1 && token.minor != 2) {
          error := true;
          return false, version;
        }
        version' := true;
      } else {
        ok := AppendTagDirective(TagDirective(token.handle, token.prefix), false);
        if !ok {
          return;
        }
      }
      Skip();
      ok := true;
    }

    /** Extra document ends are skipped. */
    method SkipDocumentEnds() returns (ok: bool)
      requires pos <= |tokens| && !error
      modifies this`pos, this`streamEndProduced, this`error
      ensures old(pos) <= pos <= |tokens| && error == !ok
      ensures var d := EndsSkipped(old(Now())); if ok then d == Some(Now()) else d.None?
    {
      var token := Peek();
      if token.None? {
        return false;
      }
      while token.value == DocumentEndToken
        invariant token.Some? && old(pos) <= pos < |tokens| && token.value == tokens[pos] && !error
        invariant EndsSkipped(old(Now())) == EndsSkipped(Now())
        decreases |tokens| - pos
      {
        Skip();
        token := Peek();
        if token.None? {
          return false;
        }
      }
      ok := true;
    }

    method DocumentBegin(implicit: bool) returns (r: Parsed)
      requires pos <= |tokens| && !error
      modifies this
      ensures Did(DocumentStep(old(Now()), implicit), r) && old(pos) <= pos
    {
      var ok := true;
      if !implicit {
        ok := SkipDocumentEnds();
      }
      if !ok {
        return Fail;
      }
      var token := Peek();
      if token.None? {
        return Fail;
      }
      r := DocumentOrEnd(implicit);
    }

    method DocumentOrEnd(implicit: bool) returns (r: Parsed)
      requires pos < |tokens| && !error
      modifies this
      ensures Did(DocumentOrEndStep(old(Now()), implicit), r) && old(pos) <= pos
    {
      var token := tokens[pos];
      if token == StreamEndToken {
        state := EndState;
        r := Got(StreamEnd);
        Skip();
      } else if implicit && !IsDirective(token) && token != DocumentStartToken {
        var ok := ProcessDirectives();
        if !ok {
          return Fail;
        }
        OpenDocument(BlockNodeState);
        r := Got(DocumentStart(true));
      } else {
        r := ExplicitDocument();
      }
    }

    method ExplicitDocument() returns (r: Parsed)
      requires pos <= |tokens| && !error
      modifies this
      ensures Did(ExplicitStep(old(Now())), r) && old(pos) <= pos
    {
      var ok := ProcessDirectives();
      if !ok {
        return Fail;
      }
      if tokens[pos] != DocumentStartToken {
        error := true;
        return Fail;
      }
      OpenDocument(DocumentContentState);
      r := Got(DocumentStart(false));
      Skip();
    }

    method OpenDocument(s: State)
      requires pos <= |tokens|
      modifies this`state, this`states
      ensures Now() == Opened(old(Now()), s)
    {
      states := states + [DocumentEndState];
      state := s;
    }

    method DocumentContent() returns (r: Parsed)
      requires pos <= |tokens| && states != [] && !error
      modifies this
      ensures Did(DocumentContentStep(old(Now())), r) && old(pos) <= pos
    {
      var token := Peek();
      if token.None? {
        return Fail;
      }
      if IsDirective(token.value) || token.value == DocumentStartToken || token.value == DocumentEndToken
         || token.value == StreamEndToken {
        Pop();
        r := Got(EmptyScalar());
      } else {
        r := ParseNode(true, false);
      }
    }

    method DocumentFinish() returns (r: Parsed)
      requires pos <= |tokens| && !error
      modifies this
      ensures Did(DocumentEndStep(old(Now())), r) && old(pos) <= pos
    {
      var token := Peek();
      if token.None? {
        return Fail;
      }
      var implicit := token.value != DocumentEndToken;
      if !implicit {
        Skip();
      }
      tagDirectives := [];
      state := DocumentStartState;
      r := Got(DocumentEnd(implicit));
    }

    /** parse: the step of the machine.  Each event is one that the grammar allows and tells what the tokens consumed
        for it say, and either a token was consumed or the rank of the state went down.  After an error or the end of
        the stream there are no more events. */
    method Parse() returns (r: Parsed)
      requires !error ==> Valid()
      modifies this
      ensures !old(error) ==> Did(StepOf(old(Now())), r)
      ensures r.Got? ==> !old(error) && pos <= |tokens| && Lands(At(old(Now())), r.event, Now())
      ensures r.Got? ==> old(pos) <= pos <= |tokens| && Tells(Words(tokens[old(pos)..pos]), r.event, old(tagDirectives))
      ensures r.Got? ==> old(pos) < pos || Rank(state) < Rank(old(state))
      ensures r.Nothing? ==> unchanged(this)
      ensures old(pos) <= pos && (old(error) ==> r.Nothing?)
    {
      if streamEndProduced || error || state == EndState {
        return Nothing;
      }
      ghost var c := Now();
      NotIdle(c);
      r := ParseState();
      if r.Got? {
        MadeLands(c, r.event, Now());
        TellsBetween(tokens, old(pos), pos, c, r.event, Now());
      }
    }

    method ParseState() returns (r: Parsed)
      requires Valid() && !error && !streamEndProduced && state != EndState
      modifies this
      ensures Did(StepOf(old(Now())), r) && old(pos) <= pos
    {
      if !IsCollection(state) {
        r := ParseOutside();
      } else if IsBlock(state) {
        r := ParseBlock();
      } else {
        r := ParseFlow();
      }
    }

    /** The states outside collections. */
    method ParseOutside() returns (r: Parsed)
      requires Valid() && !error && !streamEndProduced && !IsCollection(state) && state != EndState
      modifies this
      ensures Did(StepOf(old(Now())), r) && old(pos) <= pos
    {
      match state {
        case StreamStartState => r := StreamBegin();
        case ImplicitDocumentStartState => r := DocumentBegin(true);
        case DocumentStartState => r := DocumentBegin(false);
        case DocumentContentState => r := DocumentContent();
        case DocumentEndState => r := DocumentFinish();
        case BlockNodeState => r := ParseNode(true, false);
      }
    }

    method ParseBlock() returns (r: Parsed)
      requires Valid() && !error && IsBlock(state)
      modifies this
      ensures Did(BlockStep(old(Now())), r) && old(pos) <= pos
    {
      match state {
        case BlockSequenceFirstEntryState => r := BlockSequenceEntry(true);
        case BlockSequenceEntryState => r := BlockSequenceEntry(false);
        case IndentlessSequenceEntryState => r := IndentlessSequenceEntry();
        case BlockMappingFirstKeyState => r := BlockMappingKey(true);
        case BlockMappingKeyState => r := BlockMappingKey(false);
        case BlockMappingValueState => r := BlockMappingValue();
      }
    }

    method ParseFlow() returns (r: Parsed)
      requires Valid() && !error && IsCollection(state) && !IsBlock(state)
      modifies this
      ensures Did(FlowStep(old(Now())), r) && old(pos) <= pos
    {
      match state {
        case FlowSequenceFirstEntryState => r := FlowSequenceEntry(true);
        case FlowSequenceEntryState => r := FlowSequenceEntry(false);
        case FlowSequenceEntryMappingKeyState => r := FlowSequenceEntryMappingKey();
        case FlowSequenceEntryMappingValueState => r := FlowSequenceEntryMappingValue();
        case FlowSequenceEntryMappingEndState => r := FlowSequenceEntryMappingEnd();
        case FlowMappingFirstKeyState => r := FlowMappingKey(true);
        case FlowMappingKeyState => r := FlowMappingKey(false);
        case FlowMappingValueState => r := FlowMappingValue(false);
        case FlowMappingEmptyValueState => r := FlowMappingValue(true);
      }
    }
  }

  /** A whole run: the events are those of the machine up to where it breaks or ends; there are finitely many of them,
      and they are those of the grammar. */
  method ParseStream(tokens: seq<Token>) returns (events: seq<Event>, complete: bool)
    ensures Ends(Start(tokens), events, complete)
    ensures Follow(Before, events).Some?
    ensures complete ==> Follow(Before, events) == Some(After)
  {
    var parser := new Parser(tokens);
    events := [];
    var more := true;
    while more
      invariant fresh(parser) && parser.tokens == tokens && Issued(parser, events)
      invariant if more then !parser.error && Steps(Start(tokens), events, parser.Now())
                else Ends(Start(tokens), events, !parser.error && parser.state == EndState)
      decreases more, |tokens| - parser.pos, Rank(parser.state)
    {
      events, more := ParseNext(parser, events, Start(tokens));
    }
    complete := !parser.error && parser.state == EndState;
  }

  ghost predicate Issued(parser: Parser, events: seq<Event>)
    reads parser
  {
    && Follow(Before, events).Some?
    && (!parser.error ==> parser.Valid() && Follow(Before, events) == Some(At(parser.Now())))
  }

  method ParseNext(parser: Parser, events: seq<Event>, ghost start: Config) returns (events': seq<Event>, more: bool)
    requires !parser.error && Issued(parser, events) && Steps(start, events, parser.Now())
    modifies parser
    ensures Issued(parser, events')
    ensures if more then !parser.error && Steps(start, events', parser.Now())
            else Ends(start, events', !parser.error && parser.state == EndState)
    ensures more ==> parser.pos > old(parser.pos) || Rank(parser.state) < Rank(old(parser.state))
    ensures old(parser.pos) <= parser.pos && (more ==> parser.pos <= |parser.tokens|)
  {
    ghost var before := parser.Now();
    var r := parser.Parse();
    more := r.Got?;
    events' := events;
    if more {
      events' := events + [r.event];
      assert events'[..|events|] == events;
      StepsSnoc(start, events, before, r.event, parser.Now());
    } else {
      EndsThere(start, events, before);
    }
  }
}
