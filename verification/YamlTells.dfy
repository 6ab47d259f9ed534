/** What an event tells is what the tokens say that were consumed for it: text, style, names and tags; a node that is
    left out is the empty plain scalar. */
module YamlTells {
  import opened Options
  import opened YamlEvents
  import opened YamlSteps

  /** The tokens that carry a value. */
  predicate IsWord(t: Token) {
    t.AliasToken? || t.AnchorToken? || t.TagToken? || t.ScalarToken?
  }

  function Words(tokens: seq<Token>): seq<Token> {
    if tokens == [] then [] else (if IsWord(tokens[0]) then [tokens[0]] else []) + Words(tokens[1..])
  }

  /** A tag without a handle is its suffix; otherwise the first directive for the handle gives the prefix. */
  predicate Means(ds: seq<TagDirective>, t: Token, tag: Option<string>)
    requires t.TagToken?
  {
    && tag.Some?
    && if t.handle == "" then tag.value == t.suffix
       else exists k | 0 <= k < |ds| :: Gives(ds, k, t.handle) && tag.value == ds[k].prefix + t.suffix
  }

  predicate Gives(ds: seq<TagDirective>, k: nat, handle: string)
    requires k < |ds|
  {
    ds[k].handle == handle && forall j | 0 <= j < k :: ds[j].handle != handle
  }

  /** No properties, an anchor, a tag, or both in either order. */
  predicate Properties(words: seq<Token>, anchor: Option<string>, tag: Option<string>, ds: seq<TagDirective>) {
    match |words|
    case 0 => anchor.None? && tag.None?
    case 1 =>
      if words[0].TagToken? then anchor.None? && Means(ds, words[0], tag)
      else words[0].AnchorToken? && anchor == Some(words[0].value) && tag.None?
    case 2 =>
      if words[0].TagToken? then words[1].AnchorToken? && anchor == Some(words[1].value) && Means(ds, words[0], tag)
      else words[0].AnchorToken? && words[1].TagToken? && anchor == Some(words[0].value) && Means(ds, words[1], tag)
    case _ => false
  }

  /** A scalar token gives text and style; without one the scalar is plain (1) and empty. */
  predicate TellsScalar(words: seq<Token>, e: Event, ds: seq<TagDirective>)
    requires e.Scalar?
  {
    if words != [] && words[|words| - 1].ScalarToken? then
      && words[|words| - 1] == ScalarToken(e.text, e.style)
      && Properties(words[..|words| - 1], e.anchor, e.tag, ds)
      && (e.plain <==> e.tag == Some("!") || (e.tag.None? && e.style == 1))
      && (e.quoted <==> e.tag.None? && e.style != 1)
    else
      && e.text == "" && e.style == 1 && Properties(words, e.anchor, e.tag, ds)
      && (e.plain <==> e.tag.None? || e.tag.value == "") && !e.quoted
  }

  predicate Tells(words: seq<Token>, e: Event, ds: seq<TagDirective>) {
    match e
    case Alias(name) => words == [AliasToken(name)]
    case Scalar(_, _, _, _, _, _) => TellsScalar(words, e, ds)
    case SequenceStart(anchor, tag, implicit, _) =>
      Properties(words, anchor, tag, ds) && (implicit <==> tag.None? || tag.value == "")
    case MappingStart(anchor, tag, implicit, _) =>
      Properties(words, anchor, tag, ds) && (implicit <==> tag.None? || tag.value == "")
    case _ => words == []
  }

  // ---- What is consumed ----

  /** `b` is the rest of `a`. */
  predicate Left(a: seq<Token>, b: seq<Token>) {
    |b| <= |a| && a[|a| - |b|..] == b
  }

  function Consumed(a: seq<Token>, b: seq<Token>): seq<Token>
    requires |b| <= |a|
  {
    a[..|a| - |b|]
  }

  /** `b` is what is left of `a` when tokens with these words have been consumed. */
  ghost predicate Uses(a: seq<Token>, words: seq<Token>, b: seq<Token>) {
    Left(a, b) && Words(Consumed(a, b)) == words
  }

  lemma {:induction false} WordsAppend(a: seq<Token>, b: seq<Token>)
    ensures Words(a + b) == Words(a) + Words(b)
    decreases |a|
  {
    if a == [] {
      assert a + b == b;
    } else {
      var first := if IsWord(a[0]) then [a[0]] else [];
      assert (a + b)[1..] == a[1..] + b;
      WordsAppend(a[1..], b);
      assert first + (Words(a[1..]) + Words(b)) == first + Words(a[1..]) + Words(b);
    }
  }

  lemma {:induction false} UsesNone(a: seq<Token>)
    ensures Uses(a, [], a)
  {}

  lemma {:induction false} UsesOne(a: seq<Token>)
    requires a != []
    ensures Uses(a, if IsWord(a[0]) then [a[0]] else [], a[1..])
  {
    assert a[..1] == [a[0]] && [a[0]][1..] == [];
  }

  lemma {:induction false} UsesMore(a: seq<Token>, v: seq<Token>, b: seq<Token>, w: seq<Token>, c: seq<Token>)
    requires Uses(a, v, b) && Uses(b, w, c)
    ensures Uses(a, v + w, c)
  {
    var i, j := |a| - |b|, |a| - |c|;
    assert a[..j] == a[..i] + b[..j - i];
    WordsAppend(a[..i], b[..j - i]);
  }

  lemma {:induction false} LookupMeans(ds: seq<TagDirective>, handle: string) returns (k: nat)
    requires Lookup(ds, handle).Some?
    ensures k < |ds| && Gives(ds, k, handle) && Lookup(ds, handle).value == ds[k].prefix
    decreases |ds|
  {
    if ds[0].handle == handle {
      k := 0;
    } else {
      var j := LookupMeans(ds[1..], handle);
      k := j + 1;
      forall i | 0 <= i < k ensures ds[i].handle != handle {
        assert i > 0 ==> ds[i] == ds[1..][i - 1];
      }
    }
  }

  lemma {:induction false} ResolvedMeans(ds: seq<TagDirective>, t: Token)
    requires t.TagToken? && Resolved(ds, TagDirective(t.handle, t.suffix)).Some?
    ensures Means(ds, t, Resolved(ds, TagDirective(t.handle, t.suffix)))
  {
    if t.handle != "" {
      var k := LookupMeans(ds, t.handle);
      assert Gives(ds, k, t.handle);
    }
  }

  lemma {:induction false} DecorationTells(c: Config) returns (words: seq<Token>)
    requires c.rest != [] && Decoration(c).Some?
    ensures var d := Decoration(c).value;
      && Uses(c.rest, words, d.next.rest) && d.next.directives == c.directives
      && Properties(words, d.anchor, d.tag, c.directives)
      && (words != [] ==> !words[|words| - 1].ScalarToken?)
  {
    var a := c.rest;
    var d := Decoration(c).value;
    UsesNone(a);
    UsesOne(a);
    words := [];
    if a[0].AnchorToken? || a[0].TagToken? {
      words := [a[0]];
      if a[0].TagToken? {
        ResolvedMeans(c.directives, a[0]);
      }
      var b := a[1..];
      if if a[0].AnchorToken? then b[0].TagToken? else b[0].AnchorToken? {
        UsesOne(b);
        UsesMore(a, [a[0]], b, [b[0]], b[1..]);
        words := [a[0]] + [b[0]];
        if b[0].TagToken? {
          ResolvedMeans(c.directives, b[0]);
        }
      }
    }
  }

  /** The event tells what was consumed. */
  ghost predicate ToldFrom(step: Step, a: seq<Token>, ds: seq<TagDirective>) {
    step.Made? ==> Left(a, step.next.rest) && Tells(Words(Consumed(a, step.next.rest)), step.event, ds)
  }

  ghost predicate Told(step: Step, c: Config) {
    ToldFrom(step, c.rest, c.directives)
  }

  lemma {:induction false} ScalarTells(t: Token, anchor: Option<string>, tag: Option<string>, words: seq<Token>,
                                       ds: seq<TagDirective>)
    requires t.ScalarToken? && Properties(words, anchor, tag, ds)
    ensures Tells(words + [t], ScalarEvent(t, anchor, tag), ds)
  {
    assert (words + [t])[..|words|] == words;
  }

  lemma {:induction false} BareTells(anchor: Option<string>, tag: Option<string>, implicit: bool, words: seq<Token>,
                                     ds: seq<TagDirective>)
    requires Properties(words, anchor, tag, ds) && implicit == (tag.None? || tag.value == "")
    requires words != [] ==> !words[|words| - 1].ScalarToken?
    ensures Tells(words, Scalar(anchor, tag, "", implicit, false, PLAIN_SCALAR_STYLE), ds)
  {}

  lemma {:induction false} StartTells(first: State, anchor: Option<string>, tag: Option<string>, implicit: bool,
                                      words: seq<Token>, ds: seq<TagDirective>)
    requires IsFirst(first) && Properties(words, anchor, tag, ds) && implicit == (tag.None? || tag.value == "")
    ensures Tells(words, StartEvent(first, implicit, anchor, tag), ds)
  {
    var e := StartEvent(first, implicit, anchor, tag);
    if first == FlowSequenceFirstEntryState || first == BlockSequenceFirstEntryState {
      assert e == SequenceStart(anchor, tag, implicit, e.style);
    } else {
      assert e == MappingStart(anchor, tag, implicit, e.style);
    }
  }

  lemma {:induction false} TellsBefore(words: seq<Token>, e: Event, a: seq<Token>, c: Config, d: Config)
    requires Uses(a, words, c.rest) && d.rest == c.rest && Tells(words, e, c.directives)
    ensures ToldFrom(Made(e, d), a, c.directives)
  {}

  lemma {:induction false} TellsWith(words: seq<Token>, t: Token, e: Event, a: seq<Token>, c: Config)
    requires c.rest != [] && c.states != [] && c.rest[0] == t && IsWord(t) && Uses(a, words, c.rest)
    requires Tells(words + [t], e, c.directives)
    ensures ToldFrom(Made(e, Returned(Skipped(c))), a, c.directives)
  {
    UsesOne(c.rest);
    UsesMore(a, words, c.rest, [t], c.rest[1..]);
  }

  lemma {:induction false} ContentTells(c: Config, block: bool, indentless: bool, anchor: Option<string>,
                                        tag: Option<string>, a: seq<Token>, words: seq<Token>)
    requires c.rest != [] && c.states != [] && Uses(a, words, c.rest) && Properties(words, anchor, tag, c.directives)
    requires words != [] ==> !words[|words| - 1].ScalarToken?
    ensures ToldFrom(ContentStep(c, block, indentless, anchor, tag), a, c.directives)
  {
    var t := c.rest[0];
    var implicit := tag.None? || tag.value == "";
    if indentless && t.BlockEntryToken? {
      TellsBefore(words, SequenceStart(anchor, tag, implicit, BLOCK_STYLE), a, c,
                  c.(state := IndentlessSequenceEntryState));
    } else if t.ScalarToken? {
      ScalarTells(t, anchor, tag, words, c.directives);
      TellsWith(words, t, ScalarEvent(t, anchor, tag), a, c);
    } else if Starts(t, block).Some? {
      var first := Starts(t, block).value;
      StartTells(first, anchor, tag, implicit, words, c.directives);
      TellsBefore(words, StartEvent(first, implicit, anchor, tag), a, c, c.(state := first));
    } else if anchor.Some? || tag.Some? {
      BareTells(anchor, tag, implicit, words, c.directives);
      TellsBefore(words, Scalar(anchor, tag, "", implicit, false, PLAIN_SCALAR_STYLE), a, c, Returned(c));
    }
  }

  lemma {:induction false} NodeTells(c: Config, block: bool, indentless: bool)
    requires c.states != []
    ensures Told(NodeStep(c, block, indentless), c)
  {
    if c.rest != [] {
      if c.rest[0].AliasToken? {
        UsesOne(c.rest);
      } else if Decoration(c).Some? {
        var d := Decoration(c).value;
        var words := DecorationTells(c);
        ContentTells(d.next, block, indentless, d.anchor, d.tag, c.rest, words);
      }
    }
  }

  // ---- Every step ----

  /** A token without a value is skipped first. */
  lemma {:induction false} SkipTells(step: Step, c: Config)
    requires c.rest != [] && !IsWord(c.rest[0]) && Told(step, Skipped(c))
    ensures Told(step, c)
  {
    if step.Made? {
      UsesOne(c.rest);
      var b, d := c.rest[1..], step.next.rest;
      UsesMore(c.rest, [], b, Words(Consumed(b, d)), d);
      assert [] + Words(Consumed(b, d)) == Words(Consumed(b, d));
    }
  }

  lemma {:induction false} StillTells(e: Event, c: Config, d: Config)
    requires d.rest == c.rest && Tells([], e, c.directives)
    ensures Told(Made(e, d), c)
  {
    UsesNone(c.rest);
  }

  lemma {:induction false} EmptyTells(c: Config, s: State)
    ensures Told(NoItemStep(c, s), c)
  {
    StillTells(EmptyScalar(), c, c.(state := s));
  }

  lemma {:induction false} ItemTells(c: Config, s: State, block: bool, indentless: bool)
    ensures Told(ItemStep(c, s, block, indentless), c)
  {
    NodeTells(Saved(c, s), block, indentless);
  }

  lemma {:induction false} MaybeItemTells(c: Config, x: Context, s: State, block: bool, indentless: bool)
    ensures Told(MaybeItemStep(c, x, s, block, indentless), c)
  {
    if c.rest != [] {
      if Absent(x, c.rest[0]) {
        EmptyTells(c, s);
      } else {
        ItemTells(c, s, block, indentless);
      }
    }
  }

  lemma {:induction false} ItemAfterTells(c: Config, x: Context, s: State, block: bool, indentless: bool)
    requires c.rest != [] && !IsWord(c.rest[0])
    ensures Told(ItemAfterStep(c, x, s, block, indentless), c)
  {
    MaybeItemTells(Skipped(c), x, s, block, indentless);
    SkipTells(ItemAfterStep(c, x, s, block, indentless), c);
  }

  /** An event without a value, for a token without one. */
  lemma {:induction false} MarkTells(e: Event, c: Config, d: Config)
    requires c.rest != [] && !IsWord(c.rest[0]) && d.rest == c.rest[1..] && Tells([], e, c.directives)
    ensures Told(Made(e, d), c)
  {
    UsesOne(c.rest);
  }

  lemma {:induction false} BlockSequenceTells(c: Config)
    requires c.states != []
    ensures Told(BlockSequenceStep(c), c)
  {
    if c.rest != [] {
      if c.rest[0].BlockEntryToken? {
        ItemAfterTells(c, InBlockSequence, BlockSequenceEntryState, true, false);
      } else if c.rest[0].BlockEndToken? {
        MarkTells(SequenceEnd, c, Finished(c));
      }
    }
  }

  lemma {:induction false} IndentlessTells(c: Config)
    requires c.states != []
    ensures Told(IndentlessStep(c), c)
  {
    if c.rest != [] {
      if c.rest[0].BlockEntryToken? {
        ItemAfterTells(c, InIndentless, IndentlessSequenceEntryState, true, false);
      } else {
        StillTells(SequenceEnd, c, Returned(c));
      }
    }
  }

  lemma {:induction false} BlockKeyTells(c: Config)
    requires c.states != []
    ensures Told(BlockKeyStep(c), c)
  {
    if c.rest != [] {
      if c.rest[0].KeyToken? {
        ItemAfterTells(c, InBlockMapping, BlockMappingValueState, true, true);
      } else if c.rest[0].BlockEndToken? {
        MarkTells(MappingEnd, c, Finished(c));
      }
    }
  }

  lemma {:induction false} BlockValueTells(c: Config)
    ensures Told(BlockValueStep(c), c)
  {
    if c.rest != [] {
      if c.rest[0].ValueToken? {
        ItemAfterTells(c, InBlockMapping, BlockMappingKeyState, true, true);
      } else {
        EmptyTells(c, BlockMappingKeyState);
      }
    }
  }

  lemma {:induction false} FlowItemTells(c: Config)
    requires c.rest != [] && c.states != []
    ensures Told(FlowItemStep(c), c)
  {
    if c.rest[0] == KeyToken {
      MarkTells(MappingStart(None, None, true, FLOW_STYLE), c, FlowItemStep(c).next);
    } else if c.rest[0] != FlowSequenceEndToken {
      ItemTells(c, FlowSequenceEntryState, false, false);
    } else {
      MarkTells(SequenceEnd, c, Finished(c));
    }
  }

  lemma {:induction false} CommaTells(step: Step, c: Config, first: bool, end: Token)
    requires var r := CommaSkipped(c, first, end); r.None? || Told(step, r.value)
    ensures CommaSkipped(c, first, end).Some? ==> Told(step, c)
  {
    var r := CommaSkipped(c, first, end);
    if r.Some? && r.value != c {
      SkipTells(step, c);
    }
  }

  lemma {:induction false} FlowSequenceTells(c: Config, first: bool)
    requires c.states != []
    ensures Told(FlowSequenceStep(c, first), c)
  {
    var r := CommaSkipped(c, first, FlowSequenceEndToken);
    if r.Some? {
      FlowItemTells(r.value);
    }
    CommaTells(FlowSequenceStep(c, first), c, first, FlowSequenceEndToken);
  }

  lemma {:induction false} PairKeyTells(c: Config)
    ensures Told(PairKeyStep(c), c)
  {
    if c.rest != [] {
      if c.rest[0] != ValueToken && c.rest[0] != FlowEntryToken && c.rest[0] != FlowSequenceEndToken {
        ItemTells(c, FlowSequenceEntryMappingValueState, false, false);
      } else {
        MarkTells(EmptyScalar(), c, PairKeyStep(c).next);
      }
    }
  }

  lemma {:induction false} PairValueTells(c: Config)
    ensures Told(PairValueStep(c), c)
  {
    if c.rest != [] {
      if c.rest[0] == ValueToken {
        ItemAfterTells(c, InFlowPair, FlowSequenceEntryMappingEndState, false, false);
      } else {
        EmptyTells(c, FlowSequenceEntryMappingEndState);
      }
    }
  }

  lemma {:induction false} FlowFieldTells(c: Config)
    requires c.rest != [] && c.states != []
    ensures Told(FlowFieldStep(c), c)
  {
    if c.rest[0] == KeyToken {
      ItemAfterTells(c, InFlowMappingKey, FlowMappingValueState, false, false);
    } else if c.rest[0] != FlowMappingEndToken {
      ItemTells(c, FlowMappingEmptyValueState, false, false);
    } else {
      MarkTells(MappingEnd, c, Finished(c));
    }
  }

  lemma {:induction false} FlowKeyTells(c: Config, first: bool)
    requires c.states != []
    ensures Told(FlowKeyStep(c, first), c)
  {
    var r := CommaSkipped(c, first, FlowMappingEndToken);
    if r.Some? {
      FlowFieldTells(r.value);
    }
    CommaTells(FlowKeyStep(c, first), c, first, FlowMappingEndToken);
  }

  lemma {:induction false} FlowValueTells(c: Config, empty: bool)
    ensures Told(FlowValueStep(c, empty), c)
  {
    if c.rest != [] {
      if !empty && c.rest[0] == ValueToken {
        ItemAfterTells(c, InFlowMappingValue, FlowMappingKeyState, false, false);
      } else {
        EmptyTells(c, FlowMappingKeyState);
      }
    }
  }

  // ---- Documents ----

  lemma {:induction false} UsesSkip(a: seq<Token>, b: seq<Token>)
    requires a != [] && !IsWord(a[0]) && Uses(a[1..], [], b)
    ensures Uses(a, [], b)
  {
    UsesOne(a);
    var none: seq<Token> := [];
    UsesMore(a, none, a[1..], none, b);
    assert none + none == none;
  }

  lemma {:induction false} DirectedUses(c: Config, version: bool)
    ensures var r := Directed(c, version); r.Some? ==> Uses(c.rest, [], r.value.rest)
    decreases |c.rest|
  {
    UsesNone(c.rest);
    if c.rest != [] && Directed(c, version).Some? {
      var t, b := c.rest[0], Directed(c, version).value.rest;
      if t.VersionDirectiveToken? {
        DirectedUses(Skipped(c), true);
        UsesSkip(c.rest, b);
      } else if t.TagDirectiveToken? {
        DirectedUses(Skipped(c.(directives := c.directives + [TagDirective(t.handle, t.prefix)])), version);
        UsesSkip(c.rest, b);
      }
    }
  }

  lemma {:induction false} EndsUse(c: Config)
    ensures var r := EndsSkipped(c); r.Some? ==> Uses(c.rest, [], r.value.rest)
    decreases |c.rest|
  {
    UsesNone(c.rest);
    if c.rest != [] && c.rest[0] == DocumentEndToken {
      EndsUse(Skipped(c));
      if EndsSkipped(c).Some? {
        UsesSkip(c.rest, EndsSkipped(c).value.rest);
      }
    }
  }

  lemma {:induction false} QuietTells(e: Event, a: seq<Token>, b: seq<Token>, c: Config, d: Config)
    requires Uses(c.rest, [], a) && Uses(a, [], b) && d.rest == b && Tells([], e, c.directives)
    ensures Told(Made(e, d), c)
  {
    var none: seq<Token> := [];
    UsesMore(c.rest, none, a, none, b);
    assert none + none == none;
  }

  lemma {:induction false} ExplicitTells(c: Config)
    ensures Told(ExplicitStep(c), c)
  {
    DirectedUses(c, false);
    var r := Directed(c, false);
    if r.Some? && r.value.rest[0] == DocumentStartToken {
      UsesOne(r.value.rest);
      QuietTells(DocumentStart(false), r.value.rest, r.value.rest[1..], c, ExplicitStep(c).next);
    }
  }

  lemma {:induction false} DocumentOrEndTells(c: Config, implicit: bool)
    requires c.rest != []
    ensures Told(DocumentOrEndStep(c, implicit), c)
  {
    var t := c.rest[0];
    if t == StreamEndToken {
      MarkTells(StreamEnd, c, Skipped(c).(state := EndState));
    } else if implicit && !IsDirective(t) && t != DocumentStartToken {
      DirectedUses(c, false);
      if Directed(c, false).Some? {
        var b := Directed(c, false).value;
        UsesNone(b.rest);
        QuietTells(DocumentStart(true), b.rest, b.rest, c, Opened(b, BlockNodeState));
      }
    } else {
      ExplicitTells(c);
    }
  }

  /** Documents have no words, so the directives do not matter. */
  lemma {:induction false} DocumentTells(c: Config, implicit: bool)
    ensures Told(DocumentStep(c, implicit), c)
  {
    EndsUse(c);
    var r := if implicit then Some(c) else EndsSkipped(c);
    if r.Some? && r.value.rest != [] {
      var step := DocumentOrEndStep(r.value, implicit);
      DocumentOrEndTells(r.value, implicit);
      if !implicit && step.Made? {
        QuietTells(step.event, r.value.rest, step.next.rest, c, step.next);
      }
    }
  }

  lemma {:induction false} DocumentEndTells(c: Config)
    ensures Told(DocumentEndStep(c), c)
  {
    if c.rest != [] {
      var step := DocumentEndStep(c);
      if c.rest[0] == DocumentEndToken {
        MarkTells(step.event, c, step.next);
      } else {
        StillTells(step.event, c, step.next);
      }
    }
  }

  lemma {:induction false} RootTells(c: Config)
    requires c.states != []
    ensures Told(DocumentContentStep(c), c)
  {
    if c.rest != [] {
      NodeTells(c, true, false);
      StillTells(EmptyScalar(), c, Returned(c));
    }
  }

  // ---- Every call ----

  lemma {:induction false} BegunTells(step: Step, c: Config)
    requires IsFirst(c.state) && c.rest != [] ==> !IsWord(c.rest[0])
    requires Told(step, Begun(c))
    ensures Told(step, c)
  {
    if IsFirst(c.state) && c.rest != [] {
      assert Told(step, Skipped(c));
      SkipTells(step, c);
    }
  }

  lemma {:induction false} BlockTells(c: Config)
    requires IsBlock(c.state) && c.states != [] && (IsFirst(c.state) && c.rest != [] ==> !IsWord(c.rest[0]))
    ensures Told(BlockStep(c), c)
  {
    if c.state == BlockSequenceFirstEntryState || c.state == BlockSequenceEntryState {
      BlockSequenceTells(Begun(c));
      BegunTells(BlockStep(c), c);
    } else if c.state == IndentlessSequenceEntryState {
      IndentlessTells(c);
    } else if c.state == BlockMappingFirstKeyState || c.state == BlockMappingKeyState {
      BlockKeyTells(Begun(c));
      BegunTells(BlockStep(c), c);
    } else {
      BlockValueTells(c);
    }
  }

  lemma {:induction false} FlowTells(c: Config)
    requires IsCollection(c.state) && !IsBlock(c.state) && c.states != []
    requires IsFirst(c.state) && c.rest != [] ==> !IsWord(c.rest[0])
    ensures Told(FlowStep(c), c)
  {
    if c.state == FlowSequenceFirstEntryState || c.state == FlowSequenceEntryState {
      FlowSequenceTells(Begun(c), IsFirst(c.state));
      BegunTells(FlowStep(c), c);
    } else if c.state == FlowSequenceEntryMappingKeyState {
      PairKeyTells(c);
    } else if c.state == FlowSequenceEntryMappingValueState {
      PairValueTells(c);
    } else if c.state == FlowSequenceEntryMappingEndState {
      if c.rest != [] {
        StillTells(MappingEnd, c, c.(state := FlowSequenceEntryState));
      }
    } else if c.state == FlowMappingFirstKeyState || c.state == FlowMappingKeyState {
      FlowKeyTells(Begun(c), IsFirst(c.state));
      BegunTells(FlowStep(c), c);
    } else {
      FlowValueTells(c, c.state == FlowMappingEmptyValueState);
    }
  }

  /** Every event tells what the tokens consumed for it say. */
  lemma {:induction false} StepTells(c: Config)
    requires IsFirst(c.state) && c.rest != [] ==> !IsWord(c.rest[0])
    ensures Told(StepOf(c), c)
  {
    if !c.done && c.state != EndState && Grounded(c) {
      if IsBlock(c.state) {
        BlockTells(c);
      } else if IsCollection(c.state) {
        FlowTells(c);
      } else if c.state == StreamStartState {
        if c.rest != [] && c.rest[0] == StreamStartToken {
          MarkTells(StreamStart, c, StreamStep(c).next);
        }
      } else if c.state == ImplicitDocumentStartState {
        DocumentTells(c, true);
      } else if c.state == DocumentStartState {
        DocumentTells(c, false);
      } else if c.state == DocumentContentState {
        RootTells(c);
      } else if c.state == DocumentEndState {
        DocumentEndTells(c);
      } else {
        NodeTells(c, true, false);
      }
    }
  }

  /** The same in a sequence of tokens, from one position to another. */
  lemma {:induction false} TellsBetween(tokens: seq<Token>, i: nat, j: nat, c: Config, e: Event, d: Config)
    requires i <= |tokens| && j <= |tokens| && c.rest == tokens[i..] && d.rest == tokens[j..]
    requires StepOf(c) == Made(e, d) && (IsFirst(c.state) && c.rest != [] ==> c.rest[0] == StartToken(c.state))
    ensures i <= j && Tells(Words(tokens[i..j]), e, c.directives)
  {
    StepTells(c);
    assert Consumed(c.rest, d.rest) == tokens[i..j];
  }
}
