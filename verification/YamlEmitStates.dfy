/** The pushdown automaton of the emitter without its output: states, indents and flow level, and the place in the
    event grammar that they stand for. */
module YamlEmitStates {
  import opened YamlGrammar

  datatype State =
    | StreamStartState
    | DocumentStartState(first: bool)
    | DocumentContentState
    | DocumentEndState
    | ItemState(flow: bool, first: bool)
    | KeyState(flow: bool, first: bool)
    | ValueState(flow: bool, simple: bool)
    | EndState

  predicate InCollection(s: State) {
    s.ItemState? || s.KeyState? || s.ValueState?
  }

  /** A collection has been started, and its bracket or indentation is still to come. */
  predicate Pending(s: State) {
    (s.ItemState? || s.KeyState?) && s.first
  }

  function FrameOf(s: State): Frame
    requires InCollection(s)
  {
    if s.ItemState? then ItemFrame else if s.KeyState? then KeyFrame else ValueFrame
  }

  /** Control: the state, the stacks of states and of indents, the indent and the flow level. */
  datatype Control = Control(state: State, states: seq<State>, indents: seq<int>, indent: int, flow: nat)

  // ---- The open collections, from the outermost on ----

  /** All are collections that have been entered. */
  predicate Entered(path: seq<State>) {
    forall k | 0 <= k < |path| :: InCollection(path[k]) && !Pending(path[k])
  }

  predicate EndsInFlow(path: seq<State>)
    requires Entered(path)
  {
    path != [] && path[|path| - 1].flow
  }

  /** No block collection in a flow collection. */
  predicate Nested(path: seq<State>)
    requires Entered(path)
  {
    path == [] ||
    var n := |path| - 1;
    Nested(path[..n]) && (EndsInFlow(path[..n]) ==> path[n].flow)
  }

  function Flows(path: seq<State>): nat
    requires Entered(path)
  {
    if path == [] then 0 else Flows(path[..|path| - 1]) + if path[|path| - 1].flow then 1 else 0
  }

  function Frames(path: seq<State>): (r: seq<Frame>)
    requires Entered(path)
    ensures |r| == |path|
  {
    if path == [] then [] else Frames(path[..|path| - 1]) + [FrameOf(path[|path| - 1])]
  }

  lemma {:induction false} Snoc(path: seq<State>, s: State)
    requires Entered(path) && InCollection(s) && !Pending(s)
    ensures var p := path + [s];
      && Entered(p) && Flows(p) == Flows(path) + (if s.flow then 1 else 0) && Frames(p) == Frames(path) + [FrameOf(s)]
      && (Nested(p) <==> Nested(path) && (EndsInFlow(path) ==> s.flow))
  {
    assert (path + [s])[..|path|] == path;
  }

  /** What nesting means for any two of them. */
  lemma {:induction false} NestedPairs(path: seq<State>, i: nat, j: nat)
    requires Entered(path) && Nested(path) && i < j < |path|
    ensures path[i].flow ==> path[j].flow
    decreases |path|
  {
    var n := |path| - 1;
    if j < n {
      NestedPairs(path[..n], i, j);
    } else if i < n - 1 {
      NestedPairs(path[..n], i, n - 1);
    }
  }

  /** Indents never decrease inwards; outside of all collections the indent is -1. */
  predicate Rising(indents: seq<int>, indent: int) {
    if indents == [] then indent == -1
    else
      var n := |indents| - 1;
      Rising(indents[..n], indents[n]) && indent >= 0 && indent >= indents[n]
  }

  lemma {:induction false} RisingDeeper(indents: seq<int>, indent: int, deeper: int)
    requires Rising(indents, indent) && deeper >= 0 && deeper >= indent
    ensures Rising(indents + [indent], deeper)
  {
    assert (indents + [indent])[..|indents|] == indents;
  }

  // ---- What holds between events ----

  function One(b: bool): nat {
    if b then 1 else 0
  }

  /** `s` is the state of the innermost collection, and `path` are the others. */
  predicate Inner(path: seq<State>, s: State, depth: nat, flow: nat) {
    && Entered(path) && InCollection(s) && Nested(path) && (EndsInFlow(path) ==> s.flow)
    && depth + One(Pending(s)) == |path| + 1
    && flow + One(Pending(s) && s.flow) == Flows(path) + One(s.flow)
  }

  predicate Good(c: Control) {
    (c.state.StreamStartState? || Rising(c.indents, c.indent)) &&
    if InCollection(c.state) then
      c.states != [] && c.states[0] == DocumentEndState && Inner(c.states[1..], c.state, |c.indents|, c.flow)
    else
      c.states == [] && c.indents == [] && c.flow == 0
  }

  function PlaceOf(c: Control): Place
    requires Good(c)
  {
    match c.state
    case StreamStartState => Before
    case DocumentStartState(_) => Between
    case DocumentContentState => Root
    case DocumentEndState => Done
    case EndState => After
    case _ => Inside(Frames(c.states[1..]) + [FrameOf(c.state)])
  }

  // ---- Steps ----

  function Deeper(indent: int, best: nat, flow: bool, indentless: bool): int {
    if indent < 0 then if flow then best else 0
    else if indentless then indent else indent + best
  }

  function Begun(s: State): State {
    match s
    case ItemState(flow, _) => ItemState(flow, false)
    case KeyState(flow, _) => KeyState(flow, false)
    case _ => s
  }

  /** The first event in a collection finds its bracket or indentation written. */
  function Enter(c: Control, indent: int): Control {
    if Pending(c.state) then
      Control(Begun(c.state), c.states, c.indents + [c.indent], indent, c.flow + One(c.state.flow))
    else c
  }

  lemma {:induction false} EnterGood(c: Control, indent: int)
    requires Good(c) && (Pending(c.state) ==> indent >= 0 && indent >= c.indent)
    ensures var d := Enter(c, indent); Good(d) && PlaceOf(d) == PlaceOf(c) && !Pending(d.state)
  {
    if Pending(c.state) {
      RisingDeeper(c.indents, c.indent, indent);
    }
  }

  /** The state that a node returns to; keys are followed by simple or by full values. */
  predicate Returns(s: State, r: State) {
    match s
    case DocumentContentState => r == DocumentEndState
    case ItemState(flow, _) => r == ItemState(flow, false)
    case KeyState(flow, _) => r.ValueState? && r.flow == flow
    case ValueState(flow, _) => r == KeyState(flow, false)
    case _ => false
  }

  /** An alias or a scalar. */
  lemma {:induction false} LeafGood(c: Control, r: State)
    requires Good(c) && !Pending(c.state) && Returns(c.state, r)
    ensures var d := c.(state := r); Good(d) && WantsNode(PlaceOf(c)) && PlaceOf(d) == Open(Beyond(PlaceOf(c)))
  {
    if InCollection(c.state) {
      AdvanceLast(Frames(c.states[1..]), FrameOf(c.state));
    }
  }

  lemma {:induction false} AdvanceLast(a: seq<Frame>, f: Frame)
    ensures Advance(a + [f]) == a + [if f.ItemFrame? then ItemFrame else if f.KeyFrame? then ValueFrame else KeyFrame]
  {
    assert (a + [f])[..|a|] == a;
  }

  /** The start of a collection. */
  lemma {:induction false} StartGood(c: Control, r: State, s: State)
    requires Good(c) && !Pending(c.state) && Returns(c.state, r)
    requires Pending(s) && (c.flow > 0 ==> s.flow)
    ensures var d := c.(state := s, states := c.states + [r]);
            Good(d) && WantsNode(PlaceOf(c)) && PlaceOf(d) == Inside(Beyond(PlaceOf(c)) + [FrameOf(s)])
  {
    if InCollection(c.state) {
      AdvanceLast(Frames(c.states[1..]), FrameOf(c.state));
      Snoc(c.states[1..], r);
      assert (c.states + [r])[1..] == c.states[1..] + [r];
    } else {
      assert ([] + [r])[1..] == [];
    }
  }

  /** What the end of a collection leaves. */
  function Leave(c: Control): Control
    requires Good(c) && (c.state.ItemState? || c.state.KeyState?) && !Pending(c.state)
  {
    var n, m := |c.states| - 1, |c.indents| - 1;
    Control(c.states[n], c.states[..n], c.indents[..m], c.indents[m], c.flow - One(c.state.flow))
  }

  lemma {:induction false} InnerLeave(path: seq<State>, s: State, depth: nat, flow: nat, k: nat)
    requires Inner(path, s, depth, flow) && !Pending(s) && |path| == k + 1
    ensures depth > 0 && flow >= One(s.flow) && Inner(path[..k], path[k], depth - 1, flow - One(s.flow))
    ensures Frames(path) == Frames(path[..k]) + [FrameOf(path[k])]
  {
    assert path == path[..k] + [path[k]];
    Snoc(path[..k], path[k]);
  }

  lemma {:induction false} LeaveGood(c: Control, d: Control)
    requires Good(c) && (c.state.ItemState? || c.state.KeyState?) && !Pending(c.state) && d == Leave(c)
    ensures Good(d) && PlaceOf(d) == Open(Frames(c.states[1..]))
  {
    var n, path := |c.states| - 1, c.states[1..];
    if n > 0 {
      InnerLeave(path, c.state, |c.indents|, c.flow, n - 1);
      assert c.states[..n][1..] == path[..n - 1];
    }
  }

  /** The end of a collection. */
  lemma {:induction false} EndGood(c: Control)
    requires Good(c) && (c.state.ItemState? || c.state.KeyState?) && !Pending(c.state)
    ensures Good(Leave(c)) && Tops(PlaceOf(c), FrameOf(c.state))
    ensures PlaceOf(Leave(c)) == Open(PlaceOf(c).stack[..|PlaceOf(c).stack| - 1])
  {
    var path := c.states[1..];
    LeaveGood(c, Leave(c));
    assert (Frames(path) + [FrameOf(c.state)])[..|path|] == Frames(path);
  }
}
