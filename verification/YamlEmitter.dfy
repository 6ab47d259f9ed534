/** The emitter: events are queued until enough of them are known, and then drive a pushdown automaton.  The text it
    writes is left out; whether the text of an event is acceptable and a write succeeds may go either way. */
module YamlEmitter {
  import opened Options
  import opened YamlEvents
  import opened YamlGrammar
  import opened YamlEmitStates
  import opened YamlQueue
  import T = YamlTrees

  // ---- Looking ahead ----

  function Accumulate(e: Event): nat {
    match e
    case DocumentStart(_) => 1
    case SequenceStart(_, _, _, _) => 2
    case MappingStart(_, _, _, _) => 3
    case _ => 0
  }

  function Weight(e: Event): int {
    match e
    case StreamStart => 1
    case DocumentStart(_) => 1
    case SequenceStart(_, _, _, _) => 1
    case MappingStart(_, _, _, _) => 1
    case StreamEnd => -1
    case DocumentEnd(_) => -1
    case SequenceEnd => -1
    case MappingEnd => -1
    case _ => 0
  }

  /** Some first events of `q` close all that was open at `level` and by themselves. */
  predicate Closes(q: seq<Event>, level: int) {
    q != [] && (level + Weight(q[0]) == 0 || Closes(q[1..], level + Weight(q[0])))
  }

  predicate NeedsMore(q: seq<Event>) {
    q == [] || (0 < |q| <= Accumulate(q[0]) && !Closes(q, 0))
  }

  predicate Ends(e: Event) {
    e == StreamEnd || e.DocumentEnd? || e == SequenceEnd || e == MappingEnd
  }

  predicate Starts(e: Event) {
    e == StreamStart || e.DocumentStart? || e.SequenceStart? || e.MappingStart?
  }

  /** A document waits for one more event, a sequence for two and a mapping for three, unless it ends before. */
  lemma {:induction false} NeedsExactly(q: seq<Event>)
    ensures NeedsMore(q) <==>
            || q == []
            || (q[0].DocumentStart? && |q| == 1)
            || (q[0].SequenceStart? && (|q| == 1 || (|q| == 2 && !Ends(q[1]))))
            || (q[0].MappingStart? && (|q| == 1 || (|q| == 2 && !Ends(q[1]))
                                       || (|q| == 3 && !Ends(q[1]) && (!Ends(q[2]) || Starts(q[1])))))
  {
    if 0 < |q| <= 3 {
      ClosesFirst(q, 0);
      if |q| > 1 {
        ClosesFirst(q[1..], Weight(q[0]));
        if |q| > 2 {
          assert q[1..][1..] == q[2..];
          ClosesFirst(q[2..], Weight(q[0]) + Weight(q[1]));
        }
      }
    }
  }

  lemma {:induction false} ClosesFirst(q: seq<Event>, level: int)
    requires q != []
    ensures Closes(q, level) <==> level + Weight(q[0]) == 0 || Closes(q[1..], level + Weight(q[0]))
    ensures |q| == 1 ==> !Closes(q[1..], level + Weight(q[0]))
  {}

  predicate IsEnd(start: Event, e: Event) {
    (start.SequenceStart? && e.SequenceEnd?) || (start.MappingStart? && e.MappingEnd?)
  }

  /** Whatever the emitter takes up, it knows the next event if a collection starts. */
  lemma {:induction false} KnowsNext(q: seq<Event>)
    requires !NeedsMore(q) && (q[0].SequenceStart? || q[0].MappingStart?)
    ensures |q| >= 2
  {
    if |q| == 1 {
      assert q[1..] == [];
      assert !Closes(q[1..], 0 + Weight(q[0]));
    }
  }

  const FLOW_STYLE := 2

  predicate StyledFlow(e: Event) {
    (e.SequenceStart? || e.MappingStart?) && e.style == FLOW_STYLE
  }

  /** The next events can be a key without a question mark: an alias, a scalar of one line or an empty collection. */
  predicate SimpleShape(q: seq<Event>, multiline: bool) {
    && q != [] && (q[0].Alias? || (q[0].Scalar? && !multiline) || (|q| >= 2 && IsEnd(q[0], q[1])))
  }

  /** A block collection that has just been started is not empty. */
  predicate NotEmpty(s: State, q: seq<Event>) {
    Pending(s) && !s.flow ==> q != [] && if s.ItemState? then !q[0].SequenceEnd? else !q[0].MappingEnd?
  }

  lemma {:induction false} Refused(stream: seq<Event>, k: nat)
    requires k <= |stream| && Follow(Before, stream[..k]) == None
    ensures Follow(Before, stream) == None
  {
    assert stream == stream[..k] + stream[k..];
    T.FollowAppend(Before, stream[..k], stream[k..]);
  }

  lemma {:induction false} FollowNext(p: Place, a: seq<Event>, e: Event, q: Place)
    requires Follow(p, a) == Some(q)
    ensures Follow(p, a + [e]) == Next(q, e)
  {
    assert (a + [e])[..|a|] == a;
  }

  datatype Trouble = NoTrouble | Misplaced | Textual

  class Emitter {
    const canonical: bool
    const events: Queue<Event>
    var state: State
    var states: seq<State>
    var indents: seq<int>
    var indent: int
    var flowLevel: nat
    var bestIndent: nat
    var mappingContext: bool
    var indention: bool
    var multiline: bool
    var keyLength: nat
    var error: Trouble

    constructor (canonical: bool, bestIndent: nat)
      ensures Given([], [])
      ensures fresh(events) && fresh(events.buf)
    {
      this.canonical, this.bestIndent := canonical, bestIndent;
      events := new Queue(16);
      state, states, indents, indent, flowLevel := StreamStartState, [], [], 0, 0;
      mappingContext, indention, multiline, keyLength, error := false, false, false, 0, NoTrouble;
    }

    /** Between events: those that were taken from the queue follow the grammar and lead to where the automaton is. */
    ghost predicate Valid(done: seq<Event>)
      reads this, events, events.buf
    {
      && events.Valid() && Good(Now()) && Follow(Before, done) == Some(PlaceOf(Now()))
      && NotEmpty(state, events.Contents()) && error == NoTrouble
    }

    ghost function Now(): Control
      reads this
    {
      Control(state, states, indents, indent, flowLevel)
    }

    /** What an event leads to: the place that the grammar says, or trouble; it is out of place only if the grammar
        says so. */
    ghost predicate Outcome(c: Control, e: Event, ok: bool)
      requires Good(c)
      reads this
    {
      if ok then error == NoTrouble && Good(Now()) && Next(PlaceOf(c), e) == Some(PlaceOf(Now()))
      else error != NoTrouble && (error == Misplaced ==> Next(PlaceOf(c), e) == None)
    }

    /** Any number of writes. */
    method Write() returns (ok: bool)
      requires error == NoTrouble
      modifies this`indention, this`error
      ensures error == if ok then NoTrouble else Textual
    {
      ok := *;
      indention := *;
      if !ok {
        error := Textual;
      }
    }

    method IncreaseIndent(flow: bool, indentless: bool)
      modifies this`indents, this`indent
      ensures indents == old(indents) + [old(indent)]
      ensures indent == Deeper(old(indent), bestIndent, flow, indentless)
    {
      indents := indents + [indent];
      if indent < 0 {
        indent := if flow then bestIndent else 0;
      } else if !indentless {
        indent := indent + bestIndent;
      }
    }

    // ---- Nodes ----

    /** Before a node: the state to return to has been pushed. */
    ghost predicate Pushed(c: Control, r: State)
      reads this
    {
      Good(c) && !Pending(c.state) && Returns(c.state, r) &&
      Now().(state := c.state) == c.(states := c.states + [r]) && error == NoTrouble
    }

    /** After a node, or the start of a collection, this is the state to go on in. */
    ghost predicate GoesOn(r: State)
      reads this
    {
      if Pending(state) then states != [] && states[|states| - 1] == r else state == r
    }

    method PopState()
      requires states != []
      modifies this`state, this`states
      ensures var n := |old(states)| - 1; state == old(states)[n] && states == old(states)[..n]
    {
      var n := |states| - 1;
      state, states := states[n], states[..n];
    }

    /** A node that is complete. */
    method Return(ghost c: Control, ghost r: State)
      requires Pushed(c, r)
      modifies this`state, this`states
      ensures Now() == c.(state := r)
    {
      assert (c.states + [r])[..|c.states|] == c.states;
      PopState();
    }

    method EmitAlias(e: Event, ghost c: Control, ghost r: State) returns (ok: bool)
      requires Pushed(c, r) && e.Alias?
      modifies this
      ensures Outcome(c, e, ok) && (ok ==> !Pending(state) && state == r)
    {
      ok := Write();
      if !ok {
        return;
      }
      Return(c, r);
      LeafGood(c, r);
    }

    method EmitScalar(e: Event, ghost c: Control, ghost r: State) returns (ok: bool)
      requires Pushed(c, r) && e.Scalar?
      modifies this
      ensures Outcome(c, e, ok) && (ok ==> !Pending(state) && state == r)
    {
      ok := Write();
      if !ok {
        return;
      }
      IncreaseIndent(true, false);
      ok := Write();
      if !ok {
        return;
      }
      indent, indents := indents[|indents| - 1], indents[..|indents| - 1];
      Return(c, r);
      LeafGood(c, r);
    }

    /** How a collection starts: in flow style exactly if it is in one, or it is asked for, or it is empty. */
    ghost predicate Styled(c: Control, q: seq<Event>)
      reads this
    {
      Pending(state) ==>
        && |q| >= 2 && (if state.ItemState? then q[0].SequenceStart? else q[0].MappingStart?)
        && (state.flow <==> c.flow > 0 || canonical || StyledFlow(q[0]) || IsEnd(q[0], q[1]))
    }

    /** The next events are an empty collection. */
    method CheckEmpty(start: Event) returns (empty: bool)
      requires events.Valid() && events.Contents() != [] && events.Contents()[0] == start
      requires start.SequenceStart? || start.MappingStart?
      requires !NeedsMore(events.Contents())
      ensures |events.Contents()| >= 2 && (empty <==> IsEnd(start, events.Contents()[1]))
    {
      KnowsNext(events.Contents());
      if events.Count() < 2 {
        return false;
      }
      var next := events.At(1);
      empty := if start.SequenceStart? then next.SequenceEnd? else next.MappingEnd?;
    }

    method EmitStart(e: Event, ghost c: Control, ghost r: State) returns (ok: bool)
      requires Pushed(c, r) && (e.SequenceStart? || e.MappingStart?)
      requires events.Valid() && !NeedsMore(events.Contents()) && events.Contents()[0] == e
      modifies this
      ensures Outcome(c, e, ok) && (ok ==> Styled(c, events.Contents()) && GoesOn(r))
    {
      ok := Write();
      if !ok {
        return;
      }
      var empty := CheckEmpty(e);
      var flow := flowLevel > 0 || canonical || StyledFlow(e) || empty;
      state := if e.SequenceStart? then ItemState(flow, true) else KeyState(flow, true);
      StartGood(c, r, state);
    }

    method EmitNode(e: Event, mapping: bool, ghost c: Control, ghost r: State) returns (ok: bool)
      requires Pushed(c, r)
      requires c.state.ItemState? ==> !e.SequenceEnd?
      requires c.state.KeyState? ==> !e.MappingEnd?
      requires events.Valid() && !NeedsMore(events.Contents()) && events.Contents()[0] == e
      modifies this
      ensures Outcome(c, e, ok) && (ok ==> Styled(c, events.Contents()) && GoesOn(r))
    {
      mappingContext := mapping;
      match e
      case Alias(_) =>
        ok := EmitAlias(e, c, r);
      case Scalar(_, _, _, _, _, _) =>
        ok := EmitScalar(e, c, r);
      case SequenceStart(_, _, _, _) =>
        ok := EmitStart(e, c, r);
      case MappingStart(_, _, _, _) =>
        ok := EmitStart(e, c, r);
      case _ =>
        NoNode(c, e);
        error := Misplaced;
        ok := false;
    }

    // ---- States ----

    /** The event at the head of the queue is taken up. */
    ghost predicate Ready(e: Event)
      reads this, events, events.buf
    {
      && events.Valid() && !NeedsMore(events.Contents()) && events.Contents()[0] == e
      && Good(Now()) && error == NoTrouble
    }

    method EmitStreamStart(e: Event) returns (ok: bool)
      requires Ready(e) && state == StreamStartState
      modifies this
      ensures Outcome(old(Now()), e, ok) && !Pending(state)
    {
      if !e.StreamStart? {
        error := Misplaced;
        return false;
      }
      if bestIndent < 2 || bestIndent > 9 {
        bestIndent := 2;
      }
      indent := -1;
      ok := Write();
      if ok {
        state := DocumentStartState(true);
      }
    }

    method EmitDocumentStart(e: Event) returns (ok: bool)
      requires Ready(e) && state.DocumentStartState?
      modifies this
      ensures Outcome(old(Now()), e, ok) && !Pending(state)
    {
      if e.DocumentStart? {
        ok := Write();
        if ok {
          state := DocumentContentState;
        }
      } else if e.StreamEnd? {
        ok := Write();
        if ok {
          state := EndState;
        }
      } else {
        error := Misplaced;
        ok := false;
      }
    }

    method EmitDocumentContent(e: Event) returns (ok: bool)
      requires Ready(e) && state == DocumentContentState
      modifies this
      ensures Outcome(old(Now()), e, ok) && (ok ==> Styled(old(Now()), events.Contents()))
    {
      ghost var c := Now();
      states := states + [DocumentEndState];
      ok := EmitNode(e, false, c, DocumentEndState);
    }

    method EmitDocumentEnd(e: Event) returns (ok: bool)
      requires Ready(e) && state == DocumentEndState
      modifies this
      ensures Outcome(old(Now()), e, ok) && !Pending(state)
    {
      if !e.DocumentEnd? {
        error := Misplaced;
        return false;
      }
      ok := Write();
      if ok {
        state := DocumentStartState(false);
      }
    }

    /** The control in a collection that has been entered. */
    ghost predicate Within(c: Control)
      reads this
    {
      Good(c) && InCollection(c.state) && !Pending(c.state) && Now().(state := c.state) == c && error == NoTrouble
    }

    method Outdent(flow: bool, ghost c: Control)
      requires Within(c) && (c.state.ItemState? || c.state.KeyState?) && c.state.flow == flow
      modifies this`flowLevel, this`indent, this`indents
      ensures Now() == Leave(c).(state := old(state), states := c.states)
    {
      if flow {
        flowLevel := flowLevel - 1;
      }
      indent, indents := indents[|indents| - 1], indents[..|indents| - 1];
    }

    /** The end of a collection. */
    method Close(e: Event, flow: bool, ghost c: Control) returns (ok: bool)
      requires Within(c) && c.state.flow == flow
      requires (c.state.ItemState? && e.SequenceEnd?) || (c.state.KeyState? && e.MappingEnd?)
      modifies this
      ensures Outcome(c, e, ok) && (ok ==> !Pending(state))
    {
      CloseNext(c, e);
      Outdent(flow, c);
      ok := Write();
      if ok {
        PopState();
        Left(Now(), c);
      }
    }

    /** A node in a collection, once the state to return to is chosen. */
    method Descend(e: Event, r: State, mapping: bool, ghost c: Control) returns (ok: bool)
      requires Within(c) && Returns(c.state, r)
      requires c.state.ItemState? ==> !e.SequenceEnd?
      requires c.state.KeyState? ==> !e.MappingEnd?
      requires events.Valid() && !NeedsMore(events.Contents()) && events.Contents()[0] == e
      modifies this
      ensures Outcome(c, e, ok) && (ok ==> Styled(c, events.Contents()) && GoesOn(r))
    {
      states := states + [r];
      ok := EmitNode(e, mapping, c, r);
    }

    /** The bracket or indentation of a collection. */
    method Begin(flow: bool, indentless: bool) returns (ok: bool, ghost d: Control)
      requires Good(Now()) && error == NoTrouble && Pending(state) && state.flow == flow
      modifies this`indents, this`indent, this`flowLevel, this`indention, this`error
      ensures error == if ok then NoTrouble else Textual
      ensures ok ==> d == Enter(old(Now()), indent) && Within(d) && PlaceOf(d) == PlaceOf(old(Now()))
    {
      d := Now();
      ok := Write();
      if ok {
        IncreaseIndent(flow, indentless);
        if flow {
          flowLevel := flowLevel + 1;
        }
        EnterGood(d, indent);
        d := Enter(d, indent);
      }
    }

    /** Both flow and block sequences; a block sequence as a value in a mapping may not be indented. */
    method EmitItem(e: Event, flow: bool, first: bool) returns (ok: bool)
      requires Ready(e) && state == ItemState(flow, first)
      modifies this
      ensures Outcome(old(Now()), e, ok) && (ok ==> Styled(Enter(old(Now()), 0), events.Contents()))
    {
      ghost var c := Now();
      if first {
        ok, c := Begin(flow, !flow && mappingContext && !indention);
        if !ok {
          return;
        }
      }
      if e.SequenceEnd? {
        ok := Close(e, flow, c);
        return;
      }
      ok := Write();
      if ok {
        ok := Descend(e, ItemState(flow, false), false, c);
      }
    }

    /** A key of a simple shape and at most 128 characters goes without a question mark. */
    method CheckSimpleKey(e: Event) returns (simple: bool)
      requires events.Valid() && !NeedsMore(events.Contents()) && events.Contents()[0] == e
      ensures simple <==> keyLength <= 128 && SimpleShape(events.Contents(), multiline)
    {
      match e {
        case Alias(_) => simple := true;
        case Scalar(_, _, _, _, _, _) => simple := !multiline;
        case SequenceStart(_, _, _, _) => simple := CheckEmpty(e);
        case MappingStart(_, _, _, _) => simple := CheckEmpty(e);
        case _ => simple := false;
      }
      simple := simple && keyLength <= 128;
    }

    /** The value goes on as a simple one exactly if the key is simple and need not be marked. */
    method EmitKey(e: Event, flow: bool, first: bool) returns (ok: bool)
      requires Ready(e) && state == KeyState(flow, first)
      modifies this
      ensures Outcome(old(Now()), e, ok) && (ok ==> Styled(Enter(old(Now()), 0), events.Contents()))
      ensures var simple := old(keyLength) <= 128 && SimpleShape(events.Contents(), old(multiline));
              ok && !e.MappingEnd? ==> GoesOn(ValueState(flow, simple && !(flow && canonical)))
    {
      ghost var c := Now();
      if first {
        ok, c := Begin(flow, false);
        if !ok {
          return;
        }
      }
      if e.MappingEnd? {
        ok := Close(e, flow, c);
      } else {
        ok := EmitKeyNode(e, flow, c);
      }
    }

    method EmitKeyNode(e: Event, flow: bool, ghost c: Control) returns (ok: bool)
      requires Within(c) && c.state.KeyState? && c.state.flow == flow && !e.MappingEnd?
      requires events.Valid() && !NeedsMore(events.Contents()) && events.Contents()[0] == e
      modifies this
      ensures Outcome(c, e, ok) && (ok ==> Styled(c, events.Contents()))
      ensures var simple := old(keyLength) <= 128 && SimpleShape(events.Contents(), old(multiline));
              ok ==> GoesOn(ValueState(flow, simple && !(flow && canonical)))
    {
      ok := Write();
      if ok {
        var simple := CheckSimpleKey(e);
        if flow && canonical {
          simple := false;
        }
        ok := Descend(e, ValueState(flow, simple), true, c);
      }
    }

    method EmitValue(e: Event, flow: bool) returns (ok: bool)
      requires Ready(e) && state.ValueState? && state.flow == flow
      modifies this
      ensures Outcome(old(Now()), e, ok) && (ok ==> Styled(Enter(old(Now()), 0), events.Contents()))
    {
      ghost var c := Now();
      ok := Write();
      if ok {
        ok := Descend(e, KeyState(flow, false), true, c);
      }
    }

    method StateMachine(e: Event) returns (ok: bool)
      requires Ready(e)
      modifies this
      ensures Outcome(old(Now()), e, ok) && (ok ==> Styled(Enter(old(Now()), 0), events.Contents()))
    {
      match state
      case StreamStartState =>
        ok := EmitStreamStart(e);
      case DocumentStartState(_) =>
        ok := EmitDocumentStart(e);
      case DocumentContentState =>
        ok := EmitDocumentContent(e);
      case DocumentEndState =>
        ok := EmitDocumentEnd(e);
      case ItemState(flow, first) =>
        ok := EmitItem(e, flow, first);
      case KeyState(flow, first) =>
        ok := EmitKey(e, flow, first);
      case ValueState(flow, _) =>
        ok := EmitValue(e, flow);
      case EndState =>
        error := Misplaced;
        ok := false;
    }

    // ---- Events ----

    method NeedMoreEvents() returns (more: bool)
      requires events.Valid()
      ensures more <==> NeedsMore(events.Contents())
    {
      if events.Empty() {
        return true;
      }
      var accumulate := Accumulate(events.At(0));
      if events.Count() > accumulate {
        return false;
      }
      var level := 0;
      ghost var q := events.Contents();
      for k := 0 to events.Count()
        invariant Closes(q, 0) <==> Closes(q[k..], level)
      {
        assert q[k..][1..] == q[k + 1..];
        level := level + Weight(events.At(k));
        if level == 0 {
          return false;
        }
      }
      more := true;
    }

    /** Anchors, tags and texts of an event. */
    method AnalyzeEvent(e: Event) returns (ok: bool)
      requires error == NoTrouble
      modifies this`multiline, this`keyLength, this`error
      ensures error == if ok then NoTrouble else Textual
    {
      ok, multiline, keyLength := *, *, *;
      if !ok {
        error := Textual;
      }
    }

    /** The next event in the queue drives the automaton. */
    method Process(e: Event) returns (ok: bool)
      requires Ready(e)
      modifies this
      ensures Outcome(old(Now()), e, ok) && (ok ==> NotEmpty(state, events.Contents()[1..]))
    {
      ok := AnalyzeEvent(e);
      if ok {
        ok := StateMachine(e);
      }
    }

    /** One event is taken from the queue. */
    method Take(ghost done: seq<Event>) returns (ok: bool, ghost done': seq<Event>)
      requires Valid(done) && !NeedsMore(events.Contents())
      modifies this, events
      ensures events.Valid() && events.buf == old(events.buf)
      ensures ok ==> Valid(done') && done' + events.Contents() == done + old(events.Contents())
      ensures ok ==> |events.Contents()| < |old(events.Contents())|
      ensures !ok ==> error != NoTrouble
      ensures !ok && error == Misplaced ==> Follow(Before, done + old(events.Contents())) == None
    {
      var e := events.At(0);
      ghost var q, p := events.Contents(), PlaceOf(Now());
      assert done + q == done + [e] + q[1..];
      FollowNext(Before, done, e, p);
      ok := Process(e);
      done' := done;
      if ok {
        var _ := events.Dequeue();
        done' := done + [e];
      } else if error == Misplaced {
        T.FollowAppend(Before, done + [e], q[1..]);
      }
    }

    /** `all` are the events so far: those that were taken and those in the queue. */
    ghost predicate Given(done: seq<Event>, all: seq<Event>)
      reads this, events, events.buf
    {
      Valid(done) && done + events.Contents() == all
    }

    /** yaml_emitter_emit: an event is queued, and then all events for which enough is known are taken. */
    method Emit(event: Event, ghost done: seq<Event>, ghost all: seq<Event>)
      returns (ok: bool, ghost done': seq<Event>)
      requires Given(done, all)
      modifies this, events, events.buf
      ensures events.buf == old(events.buf) || fresh(events.buf)
      ensures ok ==> Given(done', all + [event]) && NeedsMore(events.Contents())
      ensures !ok ==> error != NoTrouble
      ensures !ok && error == Misplaced ==> Follow(Before, all + [event]) == None
    {
      assert all + [event] == done + (events.Contents() + [event]);
      events.Enqueue(event);
      ok, done' := true, done;
      var more := NeedMoreEvents();
      while !more
        invariant ok && Given(done', all + [event]) && (more <==> NeedsMore(events.Contents()))
        invariant events.buf == old(events.buf) || fresh(events.buf)
        decreases !more, |events.Contents()|
      {
        ok, done' := Take(done');
        if !ok {
          return;
        }
        more := NeedMoreEvents();
      }
    }

    /** The next event of a stream. */
    method EmitNext(stream: seq<Event>, k: nat, ghost done: seq<Event>) returns (ok: bool, ghost done': seq<Event>)
      requires k < |stream| && Given(done, stream[..k])
      modifies this, events, events.buf
      ensures events.buf == old(events.buf) || fresh(events.buf)
      ensures ok ==> Given(done', stream[..k + 1]) && NeedsMore(events.Contents())
      ensures !ok ==> error != NoTrouble && (error == Misplaced ==> Follow(Before, stream) == None)
    {
      assert stream[..k + 1] == stream[..k] + [stream[k]];
      ok, done' := Emit(stream[k], done, stream[..k]);
      if !ok && error == Misplaced {
        Refused(stream, k + 1);
      }
    }

    /** A whole stream of events, or as much of it as is emitted without trouble. */
    method EmitAll(stream: seq<Event>) returns (ok: bool, ghost done: seq<Event>)
      requires Given([], [])
      modifies this, events, events.buf
      ensures ok ==> Given(done, stream) && |events.Contents()| <= 3
      ensures ok && Follow(Before, stream) == Some(After) ==> done == stream && state == EndState
      ensures Follow(Before, stream).Some? ==> error != Misplaced
    {
      ok, done := true, [];
      for k := 0 to |stream|
        invariant ok && Given(done, stream[..k]) && NeedsMore(events.Contents())
        invariant events.buf == old(events.buf) || fresh(events.buf)
      {
        ok, done := EmitNext(stream, k, done);
        if !ok {
          return;
        }
      }
      assert stream[..|stream|] == stream;
      AllTaken(stream, done);
    }

    lemma {:induction false} AllTaken(stream: seq<Event>, done: seq<Event>)
      requires Given(done, stream) && NeedsMore(events.Contents())
      ensures |events.Contents()| <= 3
      ensures Follow(Before, stream) == Some(After) ==> done == stream && state == EndState
    {
      if Follow(Before, stream) == Some(After) {
        NothingKept(done, events.Contents(), PlaceOf(Now()));
      }
    }
  }

  lemma {:induction false} Left(d: Control, c: Control)
    requires Good(c) && (c.state.ItemState? || c.state.KeyState?) && !Pending(c.state)
    requires d.indents == Leave(c).indents && d.indent == Leave(c).indent && d.flow == Leave(c).flow
    requires d.state == c.states[|c.states| - 1] && d.states == c.states[..|c.states| - 1]
    ensures d == Leave(c)
  {}

  lemma {:induction false} CloseNext(c: Control, e: Event)
    requires Good(c) && !Pending(c.state)
    requires (c.state.ItemState? && e.SequenceEnd?) || (c.state.KeyState? && e.MappingEnd?)
    ensures Good(Leave(c)) && Next(PlaceOf(c), e) == Some(PlaceOf(Leave(c))) && !Pending(Leave(c).state)
  {
    EndGood(c);
  }

  lemma {:induction false} NoNode(c: Control, e: Event)
    requires Good(c) && (InCollection(c.state) || c.state.DocumentContentState?)
    requires !e.Alias? && !e.Scalar? && !e.SequenceStart? && !e.MappingStart?
    requires c.state.ItemState? ==> !e.SequenceEnd?
    requires c.state.KeyState? ==> !e.MappingEnd?
    ensures Next(PlaceOf(c), e) == None
  {}

  // ---- Nothing is kept back at the end of a stream ----

  function Depth(p: Place): nat {
    match p
    case Before => 0
    case Between => 1
    case Root => 2
    case Inside(stack) => 2 + |stack|
    case Done => 2
    case After => 0
  }

  function Sum(q: seq<Event>): int {
    if q == [] then 0 else Sum(q[..|q| - 1]) + Weight(q[|q| - 1])
  }

  lemma {:induction false} NextDepth(p: Place, e: Event)
    requires Next(p, e).Some?
    ensures Depth(Next(p, e).value) == Depth(p) + Weight(e)
  {}

  lemma {:induction false} FollowDepth(p: Place, q: seq<Event>)
    requires Follow(p, q).Some?
    ensures Depth(Follow(p, q).value) == Depth(p) + Sum(q)
    decreases |q|
  {
    if q != [] {
      FollowDepth(p, q[..|q| - 1]);
      NextDepth(Follow(p, q[..|q| - 1]).value, q[|q| - 1]);
    }
  }

  lemma {:induction false} SumFront(q: seq<Event>)
    requires q != []
    ensures Sum(q) == Weight(q[0]) + Sum(q[1..])
    decreases |q|
  {
    if |q| > 1 {
      SumFront(q[..|q| - 1]);
      assert q[..|q| - 1][1..] == q[1..][..|q| - 2];
    }
  }

  /** What is open and more than closed is closed at some point. */
  lemma {:induction false} Crosses(q: seq<Event>, level: int)
    requires level > 0 && level + Sum(q) <= 0
    ensures Closes(q, level)
    decreases |q|
  {
    SumFront(q);
    if level + Weight(q[0]) != 0 {
      Crosses(q[1..], level + Weight(q[0]));
    }
  }

  lemma {:induction false} NothingKept(done: seq<Event>, q: seq<Event>, p: Place)
    requires Follow(Before, done) == Some(p) && Follow(Before, done + q) == Some(After) && NeedsMore(q)
    ensures q == [] && p == After
  {
    T.FollowAppend(Before, done, q);
    FollowDepth(p, q);
    if q != [] {
      SumFront(q);
      Crosses(q[1..], 1);
    }
  }
}
